# A verified model of libbe

libbe implements the Be API on Linux. This project models the parts of it whose correctness is hard to see from the
code, and proves what they are for. Every statement holds for all inputs, all runs or all interleavings; nothing is
bounded.

* **Locks below the looper.** `RwLock` (the compare-and-swap reader/writer lock) and `Semaphore` (the counting
  semaphore) are transition systems with one shared access per step and any number of threads. Futex waits may end at
  any time. What they keep is tied to what a caller sees: which calls have returned, and with what.
* **The looper.** `LooperLock` is the recursive lock of a BLooper, made of a semaphore, an owner and a count that is
  partly written outside the mutex; it is proved to be a linearizable recursive mutex. `LooperProtocol` uses that lock
  atomically and models posting, the wakeup pipe, draining, handlers and quitting: no wakeup is lost, messages keep
  their order and go to the handlers they are meant for, and each waits a bounded number of looper steps.
* **Messages.** `Bytes`, `MessageStore`, `MessageFormat` and `NestedMessages` say what the field store and the
  flattened format of a BMessage mean; class `Message.BMessage` has the operations, which change the fields and a
  caller's buffer in place, and is proved against them.
* **Views.** `Views` has classes `BView` and `BWindow` with the pointers that the code has. The invariant `Agreement`
  ties sibling lists, parents, owners, handler lists, focus and the other pointers of windows together. The constructors
  of views and windows, `RemoveChild`, `MakeFocus`, `SetPreferredHandler` and `HitTest.PointerMoved` keep it; `AddChild`,
  `AddHandler` and `RemoveHandler` keep it exactly under the conditions given below. `HitTest` is the search for the
  view under the pointer and the coordinate conversions over real numbers. `MessageQueue` and `Updates` are the queue of
  a looper and the redraws that are merged by editing it.
* **Text, streams, paths.** `Truncation` is `truncate_string` over real widths, `MallocIO` the growable byte stream,
  `Path` the scan for paths that need normalising and the decomposition into parent and leaf.

`Options`, `Sequences` and `Geometry` hold shared definitions.

Objects that the source changes in place are classes here; a ghost parameter `views` or `windows` stands for the set of
all of them. `debugger` ends the program in libbe, so a call that reaches it gets the outcome `Aborted`. What comes from
the system or from code outside the models is a parameter: whether memory is found, what normalising through BEntry
yields, how a futex wait ends, what a handler does.

## Where the code does not do what it says

Each of these is a theorem with the exact condition.

* A reader/writer lock counts readers right exactly up to 2^32 - 2 of them (`RwLock.ReadLockKeepsWordIff`); one more
  makes the word say that a writer holds the lock, and a run leads there (`RwLock.OverrunLetsWriterIn`).
* The semaphore's sum is exact exactly while it fits in 32 bits; beyond that it holds modulo 2^32
  (`Semaphore.RunConserves`). The field is a signed integer: a semaphore of 1 reads as negative after one release of
  2^31 - 1 (`Semaphore.SignedCountTurnsNegative`, exactly when: `Semaphore.SignedCountIff`).
* `task_looper` says that it leaves the looper locked when it quits. It does so exactly if it saw the flag after
  draining (`LooperProtocol.LeavesLockedIff`; a run that leaves it unlocked: `LooperProtocol.MayLeaveUnlocked`). When it
  starts, it unlocks the looper and aborts if it is locked after that, which it is whenever another thread was quick
  enough (`LooperProtocol.BootAbortsIff`, `LooperProtocol.BootMayAbort`). It also ignores the result of its own
  `Lock()`; if that fails, the pop can meet an empty list (`LooperProtocol.FailedLockLosesPop`). If the `Lock()` in front
  of it fails, the thread ends although `Run` has reported success, and what was posted stays in the queue for good
  (`LooperProtocol.MayNotRun`).
* A message comes back from its bytes exactly if it has no zero type code (`MessageFormat.RoundTrip`).
* `AddChild` refuses to add a view to itself, but not to one of its descendants, and a window's top view, which `Parent`
  gives out, it takes if the new parent has no window. Views and windows agree after a completed call exactly if the child
  is neither on the parent's path to the root nor a top view; an ancestor makes the parents a cycle
  (`Views.BView.AddChild`, `Views.CycleIsNoForest`).
* `AddHandler` and `RemoveHandler` of a BLooper are public, and a window inherits them. On a view they change its looper
  but not its owner: views and windows that agreed still agree exactly if the view added has an owner already, which
  makes the call do nothing, or if the view removed is not owned by that window (`Views.BWindow.AddHandler`,
  `Views.BWindow.RemoveHandler`).
* `ReplaceData` with the index one past the last item writes behind the items, and `FindMessage` into the message it
  reads from reads freed items (outcome `Undefined`).
* A negative index gives the first child (`Views.BView.ChildAt`).
* The point that the hit test carries is the one that `ConvertFromScreen` computes exactly if the top view is at the
  origin (`HitTest.CarriedPointIff`), where a window puts it.
* `UpdateIfNeeded` finishes exactly if no redraw is pending for a detached view, whose looper is null
  (`Updates.UpdateIfNeeded`). Removing a child that is shown posts such a redraw, so updating the window after it never
  finishes (`Updates.RemoveShownAndUpdate`; on a new window with one view: `Updates.DetachedRedrawOccurs`).
* An empty string is left as it is even if the width is negative (`Truncation.RightKind`).
* A stream that is cut shorter within its buffer has only zeros behind its end exactly if the bytes cut off are zero
  (`MallocIO.BMallocIO.SetSize`).

## Model

| member | source | states |
|---|---|---|
| RwLock.RunIsExclusive | kits/kernel/rwlock.c:10-50 | in every state of every run the word is 0 exactly when one writer holds the lock and otherwise 1 plus the number of read holds, and a writer excludes all others, as long as there are at most 2^32 - 2 readers |
| RwLock.StepKeepsInvariant | kits/kernel/rwlock.c:10-50 | every shared access of every thread keeps word and holds in step, through failed swaps and spurious wakeups |
| RwLock.ReadStepKeepsInvariant | kits/kernel/rwlock.c:25-35 | the same for the accesses of a read lock |
| RwLock.WriteStepKeepsInvariant | kits/kernel/rwlock.c:37-50 | the same for a write lock |
| RwLock.UnlockStepKeepsInvariant | kits/kernel/rwlock.c:10-23 | the same for an unlock of a hold that the thread has |
| RwLock.WriterIsAlone | kits/kernel/rwlock.c:37-50 | if the word counts the holds, a writer excludes every other hold |
| RwLock.ReadLockKeepsWordIff | kits/kernel/rwlock.c:28 | the swap of a read lock keeps the word right if and only if there were fewer than 2^32 - 2 readers |
| RwLock.LockedOften | kits/kernel/rwlock.c:25-35 | a run for every number of read locks up to the one that wraps the word to the writer's value |
| RwLock.OverrunLetsWriterIn | kits/kernel/rwlock.c:10-50 | a run from the initial state that ends with a writer beside 2^32 - 2 read holds |
| RwLock.MatchedUnlockReleases | kits/kernel/rwlock.c:14-20 | an unlock that matches a lock never returns early, and sees the locked word exactly for a write hold |
| RwLock.StepRefinesLock | kits/kernel/rwlock.c:10-50 | each step changes the holds as a reader/writer lock may, or not at all |
| RwLock.ReturnsWithEffect | kits/kernel/rwlock.c:10-50 | a lock call adds its own hold in the step that returns and never returns without; an unlock never returns before it has taken its own away; no step changes another hold |
| RwLock.HoldsAreReturnedLocks | kits/kernel/rwlock.c:10-50 | in every run a thread has as many holds of a kind as it has returned from lock calls more often than from unlock calls, but for an unlock that has given up its hold and not returned |
| RwLock.CallersExclude | kits/kernel/rwlock.c:10-50 | judged by calls and returns alone: a thread that has returned from a write lock and not called unlock is the only one with a lock, and has it once |
| RwLock.AloneReturns | kits/kernel/rwlock.c:10-50 | a call on a lock that is free for it returns within five steps of its thread if no other moves, from any state that others have left it in |
| RwLock.CanStep | kits/kernel/rwlock.c:10-50 | no call is ever stuck |
| Semaphore.RunConserves | kits/kernel/sem.c:70-193 | in every interleaving the count is initial plus released minus taken in 32-bit arithmetic, that sum is never negative, failing acquires have taken nothing, and the sum is exact exactly while it fits in 32 bits |
| Semaphore.SignedCountIff | kits/kernel/sem.c:46-52 | read as the signed integer that the field is declared as, the count is not negative if and only if the sum modulo 2^32 fits in a signed integer, and then equals the sum if that does |
| Semaphore.SignedCountTurnsNegative | kits/kernel/sem.c:156-176 | a run from the initial state after which the signed count is negative |
| Semaphore.AcquireStepKeepsInvariant | kits/kernel/sem.c:70-154 | each shared access of an acquire, with every error exit, keeps that |
| Semaphore.ReleaseStepKeepsInvariant | kits/kernel/sem.c:156-193 | so does each of a release |
| Semaphore.StepRefinesSemaphore | kits/kernel/sem.c:70-193 | the balance changes only in the step that decides a call, by exactly what the call reports |
| Semaphore.AcquireKeepsRequest | kits/kernel/sem.c:70-154 | an acquire asks for the same count until it returns; it fails with WouldBlock exactly where a zero timeout finds too few units, and otherwise only by the clock or the kernel |
| Semaphore.ReleaseIff | kits/kernel/sem.c:156-193 | a release succeeds if and only if its count is positive, and then the balance has grown by that; otherwise nothing has changed, and it returns |
| Semaphore.AloneGetsNearer | kits/kernel/sem.c:99-153 | an acquire that runs alone is decided or asleep within 206 steps; it sleeps only if there are too few units, and if there are enough it fails only by the clock |
| LooperLock.RunLinearizes | kits/app/Looper.cpp:289-337 | at every point of every run the invariant holds and every step so far fitted an atomic recursive mutex |
| LooperLock.StepKeepsInvariant | kits/app/Looper.cpp:289-337 | every shared access of LockWithTimeout and Unlock keeps the relation of semaphore, owner, count and mutex |
| LooperLock.StepLinearizes | kits/app/Looper.cpp:289-337 | every step starts a call, ends one, changes nothing, or decides a call with exactly one effect on the recursive mutex |
| LooperLock.PossessionIsExclusive | kits/app/Looper.cpp:289-337 | judged by owner field and program counters alone: at most one thread is in possession, the semaphore is 1 exactly when none is, and a re-entering thread still owns the lock when it checks again, so it never gets B_INTERRUPTED |
| LooperLock.ForeignUnlockChangesNothing | kits/app/Looper.cpp:289-302 | an Unlock by a thread that is not the owner changes nothing |
| LooperLock.FreedExactlyAtBalance | kits/app/Looper.cpp:289-302 | the lock is given up exactly at the balancing unlock |
| LooperLock.IsLockedReads | kits/app/Looper.cpp:304-307 | IsLocked says yes only while the lock is held, and no only while it is not or while its holder is entering or leaving with a single hold; to a holder that is not in a call it says yes |
| LooperLock.CallEnds | kits/app/Looper.cpp:289-337 | every step of a thread brings its call nearer to the return, whatever others do, and a lock call fails only at the semaphore |
| LooperLock.WaitsForMutex | kits/app/Looper.cpp:289-337 | a call is held up if and only if it begins while the mutex is taken, whose holder can go on; the semaphore can be taken if and only if nobody is in possession |
| LooperProtocol.RunIsSafe | kits/app/Looper.cpp:417-534 | in every interleaving: no lost wakeup, a bounded pipe, first in first out, a preferred handler that is registered, no pop of an empty list while Lock() does not fail |
| LooperProtocol.StepKeepsInvariant | kits/app/Looper.cpp:417-534 | every step of every poster, quitter and of the looper keeps all of that |
| LooperProtocol.LooperLosesNoWakeup | kits/app/Looper.cpp:446-483 | the looper goes to sleep without a token only if somebody still has its decision about the token ahead or there is nothing to do |
| LooperProtocol.WorkerLosesNoWakeup | kits/app/Looper.cpp:417-427 | posting and quitting keep that: whoever adds work first enqueues or sets the flag and then decides about the token |
| LooperProtocol.WorkerKeepsPipeBounded | kits/kernel/thread.c:384-430 | tokens in the pipe and on the way to it are at most as many as there are threads |
| LooperProtocol.LooperKeepsPipeBounded | kits/kernel/thread.c:433-474 | receiving keeps that, also when it returns without data |
| LooperProtocol.WorkerKeepsFifo | kits/app/Looper.cpp:417-427 | posting and removing by other threads keep the order of what is queued and taken |
| LooperProtocol.LooperKeepsFifo | kits/app/Looper.cpp:485-534 | so do popping, dispatching, dropping and what a handler does |
| LooperProtocol.DeliverKeepsFifo | kits/app/Looper.cpp:494-520 | a message is dispatched, or dropped if its handler is not the looper's, in the order in which it was taken |
| LooperProtocol.DispatchIff | kits/app/Looper.cpp:494-520 | a message goes to the handler it is addressed to, or without one to the preferred handler, or without that to the looper, if the looper has that handler, and is dropped otherwise; a quit request to the looper itself is answered |
| LooperProtocol.RunDispatches | kits/app/Looper.cpp:485-534 | in every interleaving each delivered message went to the handler it was meant for when the looper had that handler, and each dropped one was meant for a handler that the looper did not have |
| LooperProtocol.AnswerIsStored | kits/app/Looper.cpp:97-108 | the answer to a quit request is stored in fTerminating as it was given |
| LooperProtocol.DrainEndsIff | kits/app/Looper.cpp:485-534 | at every point of every run the looper stops draining if and only if it sees an empty queue or the message it took last asks for a repaint |
| LooperProtocol.SleepsIff | kits/app/Looper.cpp:457-470 | the looper waits for a token if and only if it saw an empty queue, and goes on to lock otherwise |
| LooperProtocol.RemoveKeepsFifo | kits/app/MessageQueue.cpp:36-50 | a removal takes out exactly that message |
| LooperProtocol.StepKeepsStarted | kits/app/Looper.cpp:201-224 | the looper runs only after fThread is set, and only the thread that called Run starts it |
| LooperProtocol.LooperKeepsDisciplined | kits/app/Looper.cpp:446-483 | the looper thread holds the lock exactly while it drains, so what it saw in the queue is there when it pops |
| LooperProtocol.WorkerKeepsDisciplined | kits/app/Looper.cpp:289-337 | no other thread's step changes that |
| LooperProtocol.WorkerKeepsPreferred | kits/app/Looper.cpp:133-163 | adding, removing and choosing handlers under the lock keeps the preferred handler registered |
| LooperProtocol.LooperKeepsPreferred | kits/app/Looper.cpp:133-199 | so does the looper with what its handlers do |
| LooperProtocol.EditsAreExact | kits/app/Looper.cpp:146-199 | removing a handler takes out that one and forgets it as the preferred one, and nothing else; a handler can be preferred if and only if it is registered |
| LooperProtocol.QuitIsFinal | kits/app/Looper.cpp:225-277 | in a run in which Lock() never fails, fTerminating stays set once it is |
| LooperProtocol.QuitIsNeverUndone | kits/app/Looper.cpp:225-277 | no step clears fTerminating again while Lock() has not failed |
| LooperProtocol.LeavesLockedIff | kits/app/Looper.cpp:476-479 | the looper ends if and only if it sees the flag at one of its two looks, and then with its lock held if and only if that was the one behind a drain |
| LooperProtocol.QuitStopsLooper | kits/app/Looper.cpp:457-483 | in a run in which Lock() does not fail, a looper that has been told to quit starts at most one more drain, and none if it was not on its way to one |
| LooperProtocol.QuitterLetsGo | kits/app/Looper.cpp:246-251 | a thread that quits the looper goes on to wake it only without the lock, and each of its steps until then takes one of its holds away |
| LooperProtocol.BootAbortsIff | kits/app/Looper.cpp:446-455 | right after its first unlock the looper can abort if and only if another thread holds the lock at that look, and has to if that thread holds it twice |
| LooperProtocol.BootMayAbort | kits/app/Looper.cpp:446-455 | a run from the initial state in which it does |
| LooperProtocol.IsLockedSaysWhatItReads | kits/app/Looper.cpp:304-307 | what IsLocked may answer in this model is what it reads in that of the lock |
| LooperProtocol.MayLeaveUnlocked | kits/app/Looper.cpp:457-483 | a run from the initial state, without a failed Lock(), in which the looper ends without its lock |
| LooperProtocol.FailedLockLosesPop | kits/app/Looper.cpp:470-475 | a run from the initial state in which Lock() fails and the looper pops an empty list |
| LooperProtocol.LooperLowersRank | kits/app/Looper.cpp:446-534 | each step of the looper's control flow brings a waiting message nearer |
| LooperProtocol.WorkerKeepsRank | kits/app/MessageQueue.cpp:28-50 | nothing that other threads do moves a waiting message back |
| LooperProtocol.MessageWaitsBoundedly | kits/app/Looper.cpp:446-534 | a message with p others in front is dispatched, dropped or removed within 10 p + 10 steps that change the looper's program counter, also across breaks for repainting, unless the looper aborts or ends, which it also does by not starting; steps inside a handler do not change the program counter and are not counted |
| LooperProtocol.MayNotRun | kits/app/Looper.cpp:429-444 | a run from the initial state in which the looper's first Lock() fails, its thread has ended for good, and a message posted to it is still queued |
| Bytes.LoadStored | kits/app/Message.cpp:336-401 | an integer stored in little-endian bytes is loaded back if it fits in its width |
| Bytes.StoredByte | kits/app/Message.cpp:336-401 | byte i of a stored integer is its digit of 256 to the power of i, so the least significant comes first |
| Bytes.SameNameIff | kits/app/Message.cpp:127-138 | names are the same if and only if their first 255 characters are, terminator included |
| Bytes.CStringOfIff | kits/app/Message.cpp:425-429 | bytes read as a C string are all kept exactly if none is zero |
| MessageStore.LocateByName | kits/app/Message.cpp:127-138 | in a valid store a name matches exactly the field named by its first 255 bytes |
| MessageStore.PushKeepsValid | kits/app/Message.cpp:110-147 | adding data keeps names distinct and short and fields non-empty |
| MessageStore.BuildIsValid | kits/app/Message.cpp:110-147 | every store that AddData can build from an empty message is valid, and its type codes were passed to AddData |
| MessageStore.FindAdded | kits/app/Message.cpp:149-171 | added data is found behind the items of its field, which stay where they were |
| MessageStore.PushKeepsOthers | kits/app/Message.cpp:110-147 | adding to one field changes no lookup in another |
| MessageStore.PushKeepsStatus | kits/app/Message.cpp:110-147 | where one item could be added another of its name and type can |
| MessageStore.ReplaceKeepsValid | kits/app/Message.cpp:512-530 | replacing keeps the store valid |
| MessageStore.FindReplaced | kits/app/Message.cpp:512-530 | a replaced item is found in place of the old one and the others stay |
| MessageStore.ReplaceKeepsOthers | kits/app/Message.cpp:512-530 | replacing in one field changes no lookup in another |
| MessageStore.FindIsAdded | kits/app/Message.cpp:110-171 | for a message built by any calls of AddData, every lookup gives the items that were added under the name with the type of the first of them, by their place in that order, or exactly the error due; only the index one past the last is let through |
| MessageFormat.RoundTrip | kits/app/Message.cpp:336-446 | reading a flattened message, whatever follows it, gives back what, fields and items in order if and only if no type code is zero, and in general the fields in front of the first such code |
| MessageFormat.FormatIsUnambiguous | kits/app/Message.cpp:336-446 | no two messages without zero type codes have bytes one of which begins the other |
| MessageFormat.SizeIsLength | kits/app/Message.cpp:317-334 | the computed size is the length of the flattened form |
| MessageFormat.ReadFieldsBack | kits/app/Message.cpp:409-446 | reading the fields from any one on, behind those already read |
| MessageFormat.ReadAllItems | kits/app/Message.cpp:433-442 | reading the remaining items of a field adds exactly them |
| MessageFormat.ReadFieldHead | kits/app/Message.cpp:422-432 | type, name and item count of a field are read back |
| MessageFormat.PushAllCompletes | kits/app/Message.cpp:110-147 | adding the remaining items of a field one by one completes it |
| MessageFormat.CopyIsExact | kits/app/Message.cpp:65-77 | adding all items of a valid store one by one to an empty one reproduces it |
| NestedMessages.GetPut | kits/app/Message.cpp:628-658 | FindMessage at the place of a successful AddMessage gives an equal message |
| NestedMessages.PutKeepsBuilt | kits/app/Message.cpp:628-658 | a successful AddMessage keeps the store invariant and nonzero type codes |
| NestedMessages.UnpackNest | kits/app/Message.cpp:797-813 | unpacking gives back the innermost message at any nesting depth |
| NestedMessages.AddingKeepsFound | kits/app/Message.cpp:110-171 | adding anything changes nothing that was found |
| NestedMessages.UnpackAfterAdding | kits/app/Message.cpp:628-658 | a nested message stays reachable when the outer one gets more data |
| Message.BMessage.AddData | kits/app/Message.cpp:110-147 | the new store and status for every input, with the search loop |
| Message.BMessage.FindData | kits/app/Message.cpp:149-171 | which item is found, or which error |
| Message.BMessage.ReplaceData | kits/app/Message.cpp:512-530 | the new store, the error that leaves it alone, or Undefined exactly for the index one past the last item |
| Message.BMessage.FlattenedSize | kits/app/Message.cpp:317-334 | the loop computes the exact size |
| Message.BMessage.Flatten | kits/app/Message.cpp:336-401 | succeeds exactly if the lengths fit in the format and the buffer holds the flattened size; then the buffer begins with exactly those bytes and is otherwise unchanged, and in every case nothing at or beyond the given size changes |
| Message.BMessage.FlattenField | kits/app/Message.cpp:347-393 | the same for one field at a cursor |
| Message.BMessage.Unflatten | kits/app/Message.cpp:409-446 | the message becomes what its bytes say |
| Message.BMessage.Assign | kits/app/Message.cpp:65-77 | copying reproduces a valid message exactly, and copying a message to itself empties it |
| Message.BMessage.AddMessage | kits/app/Message.cpp:628-658 | adds the flattened message as an item, or fails and changes nothing |
| Message.BMessage.FindMessage | kits/app/Message.cpp:797-813 | rebuilds the other message from the item, or empties it, also if it is this message; Undefined exactly where the code reads behind the items or items it has freed |
| Message.AddAndFind | kits/app/Message.cpp:628-813 | on objects: a message that was added to another and found there again is equal to what was added, and it can be added exactly if it can be flattened and no field of another type has the name |
| Views.BView.constructor | kits/interface/View.cpp:151-175 | a new view has its frame and joins the views as a tree of its own |
| Views.BView.AddChild | kits/interface/View.cpp:441-506 | for every child which calls abort; otherwise the child list, all paths and all owners after it, and that views and windows still agree if and only if the child is neither an ancestor of the parent nor a window's top view; an ancestor makes the parents a cycle; frames of views and handlers of other windows are unchanged; without a sibling the child comes last, with one exactly in front of it |
| Views.BView.RemoveChild | kits/interface/View.cpp:508-542 | exactly a child is removed; the child list, all paths, owners and pointers after it; views and windows still agree; frames of views and other windows are unchanged |
| Views.BView.AddChildToList | kits/interface/View.cpp:467-498 | inserts into the sequence of children in front of a sibling or at the end; all pointers of all views after it, and that they still spell all child sequences; without a sibling the child comes last |
| Views.BView.RemoveChildFromList | kits/interface/View.cpp:525-539 | deletes from the sequence of children, likewise |
| Views.BView.LinkBefore | kits/interface/View.cpp:468-478 | the pointers after linking in front of a sibling |
| Views.BView.LinkLast | kits/interface/View.cpp:479-496 | the pointers after linking at the end |
| Views.BView.Unlink | kits/interface/View.cpp:525-535 | the pointers of the neighbours after unlinking |
| Views.BView.AddSubtree | kits/interface/View.cpp:467-498 | the forest after a subtree was linked, or the cycle |
| Views.BView.RemoveSubtree | kits/interface/View.cpp:525-539 | the forest after a subtree was unlinked |
| Views.BView.CountChildren | kits/interface/View.cpp:544-557 | counts the sequence of children |
| Views.BView.ChildAt | kits/interface/View.cpp:559-570 | the child at an index of that sequence, none behind its end, the first for a negative index |
| Views.BView.Attach | kits/interface/View.cpp:1748-1774 | exactly the views of the subtree get the window as owner and become its handlers, each once; they are appended to the handlers, each in front of those below it and these in the order of the children |
| Views.BView.Detach | kits/interface/View.cpp:1776-1819 | exactly the views of the subtree lose owner and registration, and exactly the pointers to them are cleared, the preferred handler also with the focus; the other handlers stay in order |
| Views.BView.LeaveWindow | kits/interface/View.cpp:1794-1818 | the same for one view |
| Views.BView.MakeFocus | kits/interface/View.cpp:1670-1692 | focus and preferred handler after every call; views and windows still agree |
| Views.BWindow.constructor | kits/interface/Window.cpp:1559 | a new window owns its top view and agrees with the views; no other view changes its owner |
| Views.BWindow.AddHandler | kits/app/Looper.cpp:133-144 | registers a handler that has no looper; for a view, views and windows that agreed still agree if and only if it had an owner already |
| Views.BWindow.RemoveHandler | kits/app/Looper.cpp:146-163 | takes out a handler of its own and forgets it as the preferred one; for a view, views and windows that agreed still agree if and only if this window does not own it |
| Sequences.RemoveFirstIs | kits/app/Looper.cpp:152 | taking a handler out of the list keeps the others in order |
| Views.BWindow.SetPreferredHandler | kits/app/Looper.cpp:191-199 | only a registered handler becomes the preferred one; views and windows that agreed still do |
| Views.BWindow.SetFocus | kits/interface/Window.cpp:2726-2737 | focus and preferred handler, unchanged if the view had the focus |
| Views.OwnedIffInTree | kits/interface/View.cpp:1748-1819 | the views of a window's tree are exactly those that it owns and exactly its handlers, each once |
| Views.OwnerOfRoot | kits/interface/View.cpp:1748-1774 | all views of a tree have the owner of its root |
| Views.CycleIsNoForest | kits/interface/View.cpp:441-506 | views whose parents lead from one of them back to it are no forest |
| Views.PathsAreSimple | kits/interface/View.cpp:441-506 | no view is its own ancestor |
| Views.PathStep | kits/interface/View.cpp:441-506 | paths follow the parent pointers and are prefixes of each other |
| Views.SubtreeOfChild | kits/interface/View.cpp:1766-1785 | the loops over children meet disjoint subtrees, strictly smaller than the whole |
| Views.SubtreeIff | kits/interface/View.cpp:1748-1819 | a subtree has exactly the views that have its top on their path |
| HitTest.ViewUnderPointer | kits/interface/Window.cpp:1902-1916 | the descent ends, at a view that no child of contains the point and to which every step goes to the first child hit, with the point in that view's coordinates |
| HitTest.FirstHit | kits/interface/Window.cpp:1908-1914 | the first sibling in list order that contains the point, or none |
| HitTest.HitIsUnique | kits/interface/Window.cpp:1902-1916 | there is only one such view in a window |
| HitTest.CarriedPointIff | kits/interface/Window.cpp:1902-1911 | the carried point is the view's ConvertFromScreen of the pointer if and only if the top view is at the origin |
| HitTest.PointerMoved | kits/interface/Window.cpp:1902-1971 | the view found becomes the last one under the pointer; views and windows still agree |
| HitTest.ConversionsAreInverse | kits/interface/View.cpp:708-742 | to the screen and from the screen are mutual inverses along any parent chain |
| HitTest.RectConversionsAreInverse | kits/interface/View.cpp:744-772 | the same for rectangles, whose contents move with them |
| HitTest.ConversionsMove | kits/interface/View.cpp:774-796 | both conversions move every point by the view's position on the screen |
| HitTest.FrameIff | kits/interface/View.cpp:703-706 | a frame contains exactly the points that convert into the bounds if and only if these are at the origin |
| HitTest.HitIsWithin | kits/interface/Window.cpp:1902-1916 | the view found below the top view contains the point in its own bounds, if these are at the origin |
| Geometry.CoversIff | kits/interface/Rect.cpp:198-202 | a rectangle contains a valid one if and only if it contains all its points |
| Geometry.ContainsIff | kits/interface/Rect.cpp:192-196 | a rectangle contains exactly the points by which its union would not grow |
| Geometry.OffsetMoves | kits/interface/Rect.cpp:68-74 | a rectangle that is offset keeps its size and contains the points offset with it |
| Geometry.FlooredIsBelow | kits/interface/View.cpp:169-172 | a new view's edges are the largest whole numbers that are not above those given |
| MessageQueue.BMessageQueue.AddMessage | kits/app/MessageQueue.cpp:28-34 | appends a message unless it is null |
| MessageQueue.BMessageQueue.RemoveMessage | kits/app/MessageQueue.cpp:36-50 | removes every occurrence of a message and keeps the order of the others |
| MessageQueue.BMessageQueue.NextMessage | kits/app/MessageQueue.cpp:52-60 | takes the first message, or nothing from an empty queue |
| MessageQueue.BMessageQueue.FindMessageAt | kits/app/MessageQueue.cpp:62-72 | the message at an index, none for other indices |
| MessageQueue.BMessageQueue.FindMessage | kits/app/MessageQueue.cpp:74-86 | the message at an index among those with a code |
| MessageQueue.HavingWithout | kits/app/MessageQueue.cpp:36-86 | searching after removing finds what was found before without what was removed |
| Updates.MergeUpdates | kits/interface/View.cpp:227-250 | the loop ends, the queue is the old one without this view's redraws, and the rectangle is the smallest that covers all of them |
| Updates.UnionIsHull | kits/interface/Rect.cpp:177-181 | operator| gives the smallest rectangle that covers one more |
| Updates.HullIsUnique | kits/interface/Rect.cpp:177-181 | there is only one smallest rectangle |
| Updates.MergeOneMore | kits/interface/View.cpp:233-250 | removing the message found keeps those in front of and behind the index |
| Updates.UpdateOne | kits/interface/Window.cpp:2231-2241 | one turn draws one view with all that is pending for it, or makes a redraw of the window one of its top view, and gets nearer to the end; a redraw of the window becomes one of the whole top view |
| Updates.RedrawAll | kits/interface/Window.cpp:2231-2241 | the loop ends, and how |
| Updates.UpdateIfNeeded | kits/interface/Window.cpp:2227-2245 | finishes exactly if no redraw is pending for a detached view; then no redraw is left, the other messages are in order with one more at the end, and each pending view was drawn exactly once in its smallest rectangle, in the order in which redraws were first posted for them; if redraws of the window are pending too, the top view is drawn once or twice, at least once as a whole, in rectangles that cover all that was pending for it and nothing beyond that and its bounds |
| Updates.RemoveShown | kits/interface/View.cpp:1776-1819 | a child that is shown leaves a redraw of itself, with no looper, in the queue when it is removed; views and windows still agree |
| Updates.RemoveShownAndUpdate | kits/interface/Window.cpp:2227-2245 | whatever else is pending, updating the window after that ends at a null looper |
| Updates.DetachedRedrawOccurs | kits/interface/Window.cpp:2227-2245 | it happens from the start: a new window, one view added and removed, an update |
| Updates.ViewTurn | kits/interface/Window.cpp:2231-2237 | drawing a view with all its redraws keeps what is due and what was drawn in step |
| Updates.ViewTurnBounds | kits/interface/Window.cpp:2231-2241 | after the top view's first draw all that is due for it comes behind the redraws of the window, so there are at most two |
| Updates.WindowTurn | kits/interface/Window.cpp:2020-2031 | so does a redraw of the window |
| Updates.WindowTurnWhole | kits/interface/Window.cpp:2020-2031 | while redraws of the window are pending or have been, the whole top view is due or has been drawn |
| Updates.ViewTurnOrder | kits/interface/Window.cpp:2231-2237 | the view drawn next is that of the first redraw still pending |
| Truncation.CutBeginning | kits/interface/InterfaceDefs.cpp:86-114 | the longest end of the string that fits behind an ellipsis, all of it or nothing, with exact conditions; what is kept fits for any widths |
| Truncation.CutEnd | kits/interface/InterfaceDefs.cpp:116-144 | the same for the longest beginning |
| Truncation.CutMiddle | kits/interface/InterfaceDefs.cpp:146-198 | the removed range is within the string and not empty, what is kept fits, both sides differ by at most the widest character, all or nothing with exact conditions; no more is cut than has to be: with a character more on one of the sides it would not fit |
| Truncation.TruncateString | kits/interface/InterfaceDefs.cpp:77-202 | the string becomes the cut string in each mode |
| Truncation.SumGrows | kits/interface/InterfaceDefs.cpp:83-144 | a part is at most as wide as a larger part |
| Truncation.ScaledSum | kits/interface/InterfaceDefs.cpp:87 | the width of a part is that of its escapements times the font size |
| Truncation.AppliedKeeps | kits/interface/InterfaceDefs.cpp:106-192 | what is kept stays in front of the ellipsis and behind it |
| MallocIO.BMallocIO.WriteAt | kits/support/DataIO.cpp:191-209 | replaces exactly its range and extends the length to its end, growing the buffer if needed; a failure changes nothing; gaps are zero |
| MallocIO.BMallocIO.ReadAt | kits/support/DataIO.cpp:177-189 | gives the matching slice of the stream |
| MallocIO.BMallocIO.SetSize | kits/support/DataIO.cpp:234-264 | length, capacity and bytes after it; only zeros are behind the end if and only if the bytes cut off within the buffer are zero |
| MallocIO.BMallocIO.Reallocate | kits/support/DataIO.cpp:237-258 | the buffer keeps its bytes, the new area is zero, and the capacity is rounded up to the block size |
| MallocIO.BMallocIO.Seek | kits/support/DataIO.cpp:211-227 | the position for each mode |
| MallocIO.BMallocIO.SetBlockSize | kits/support/DataIO.cpp:266-273 | a block size of zero means one |
| MallocIO.BMallocIO.Write | kits/support/DataIO.cpp:51-59 | replaces exactly the range at the position, extends the length to its end, and moves the position behind it; a failure changes nothing |
| MallocIO.BMallocIO.Read | kits/support/DataIO.cpp:41-49 | gives the slice at the position, moves the position behind it and leaves the rest of the buffer |
| MallocIO.RunCalls | kits/support/DataIO.cpp:162-273 | on a new stream, over any run of writes, sizes that grow or reset and block sizes, each byte is the last one written there since the last reset, gaps are zero, and so is all that is left of the buffer, across every reallocation |
| MallocIO.StreamHoldsLastWrites | kits/support/DataIO.cpp:177-264 | the sequence that such a run leaves holds the last writes and zeros |
| MallocIO.RoundUpIsNext | kits/support/DataIO.cpp:245 | the capacity is the next multiple of the block size |
| Path.MustNormalize | kits/storage/Path.cpp:316-391 | the scan says yes exactly if the path is relative or one of its names is empty, "." or ".." |
| Path.CleanIsResolved | kits/storage/Path.cpp:316-391 | a path needs no normalising if and only if its names are what they lead to, taking "." to stay and ".." to go back |
| Path.ScanOn | kits/storage/Path.cpp:348-382 | the state within a name is the one that stands for its beginning |
| Path.ScanSlash | kits/storage/Path.cpp:348-382 | a slash after a special name decides, after another starts the next name |
| Path.ScanEnd | kits/storage/Path.cpp:384-389 | the state at the end decides about the last name |
| Path.ParentAndLeaf | kits/storage/Path.cpp:197-241 | the parent has all names but the last, which is the leaf; the parent needs no normalising; together they are the path |
| Path.SplitJoins | kits/storage/Path.cpp:197-241 | the names of a path, joined with slashes, are the path again |
| Path.SplitHasNoSlash | kits/storage/Path.cpp:197-241 | no name has a slash |
| Path.ParentAndLeafRoundTrip | kits/storage/Path.cpp:56-116 | SetTo with parent and leaf gives the path back without normalising |
| Path.TakeApartAndJoin | kits/storage/Path.cpp:56-241 | on objects: SetTo with what GetParent and Leaf of a path give makes a path of the same name |
| Path.NamesDeterminePath | kits/storage/Path.cpp:197-241 | paths that need no normalising are equal if their names are |
| Path.BPath.SetTo | kits/storage/Path.cpp:56-116 | for every argument the error, the route through BEntry, or the combined path; when asked to normalise it keeps only what BEntry gives, otherwise a clean path as it is |
| Path.BPath.Combine | kits/storage/Path.cpp:62-91 | the combined path if it fits in the buffer |
| Path.BPath.Leaf | kits/storage/Path.cpp:197-212 | the last name |
| Path.BPath.GetParent | kits/storage/Path.cpp:214-241 | the parent for every path but the root directory, and the errors |

## Left out

- Sleeping and waking inside the semaphore and the reader/writer lock: futex waits may end at any time in the models, so
  nothing is said about when they do, and the wake calls do nothing.
- Timeouts: an acquire with a timeout may fail at its wait; clock arithmetic is not modelled.
- A wrap-around of the 32-bit count of nested holds of a looper.
- Quit from the looper's own thread or before Run, deletion of the looper, and waiting for its thread.
- Interrupted and failing writes to the wakeup pipe, and the data that comes with a token.
- The message loop of BWindow, and everything of Wayland, xkb and Skia; a canvas is taken to be there when a view draws.
- Message.BMessage.FindMessage: an item that is found must be the flattened form of a message, as the code reads on until
  it finds its end; where the outcome is `Undefined`, nothing is said of the message.
- Message.BMessage.ReplaceData: after the outcome `Undefined` the model stops.
- Message.AddAndFind: the size of the inner message fits in `ssize_t`, whose overflow is not modelled.
- Message.BMessage.FindData: the index one past the last item gives `PastEnd`, a reference that the code makes without an
  item behind it; nothing is said about its use.
- Message.BMessage.Unflatten: the bytes must hold a whole flattened message, as the code reads on until it finds its end.
- Failures of `malloc` in messages and paths; the stack buffer of AddMessage.
- ReplaceMessage and the typed shortcuts for adding, finding and replacing data.
- Hooks of views do nothing, and drawing posts nothing; the redraws posted by attaching and detaching are not part of the
  tree model.
- Updates.RemoveShown: of the redraws that detaching posts only that of the removed child is modelled, not those of the
  views below it; the child draws and the window is not hidden.
- Handlers of a window that are not views, next handlers, event masks, and locking of windows, whose calls are made under
  the looper lock.
- Updates.UpdateIfNeeded: pending redraws are for views of this window or for detached ones; a view that has moved to
  another window merges in that window's queue, which is not modelled.
- The recursive drawing of children inside an updated view, and its clipping.
- Rounding of floating-point numbers: coordinates and widths are real numbers.
- Truncation.TruncateString: characters are the unit, UTF-8 is not modelled, and there is one escapement for each.
- MallocIO.RunCalls: memory is always found; a call that finds none changes nothing, as WriteAt and SetSize say.
- MallocIO.BMallocIO.WriteAt: offsets are not negative and the buffer is not the stream's own; reading likewise.
- BMemoryIO, whose length may pass the end of its buffer, and BList, which is a sequence here.
- Path.BPath.SetTo: what normalising through BEntry yields is a parameter; directories and entry references are not
  modelled.

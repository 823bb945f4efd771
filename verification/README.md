# Pintos in Dafny

A model of the parts of the Pintos kernel whose correctness rests on more than one
function at a time, with proofs. Pintos is a small 32-bit x86 kernel; its C code
schedules threads by priority, synchronises them with semaphores, locks and condition
variables, keeps intrusive lists and a hash table, allocates pages and blocks, divides
64-bit numbers with 32-bit instructions, builds page tables, loads programs, formats
numbers and reads tar headers.

`dafny verify dfyconfig.toml` checks the whole project.

## How the model is built

* **Threads and synchronisation** (`Kernel*.dfy`). Every section that runs with
  interrupts off is one step, and so is every unprotected write between two sections: the
  holder field of a lock, the waiters list of a condition variable. The timer may preempt
  the current thread between any two steps, and interrupt handlers may up or try-down
  semaphores. A run is any sequence of enabled steps from the state `thread_start` leaves.
  The invariant is proved of every state of every run, and the theorems are read off it.
  `KernelSteps.dfy` and `KernelCalls.dfy` state what each section, and each call from its
  first step to its return, has brought about in a run, whatever happens in between.
  `KernelTurns.dfy` states round robin over parts of runs.  In `KernelLists.dfy` and
  `KernelMachine.dfy` the ready list and every wait list are linked lists of thread elements
  in one memory; the class `Machine` performs each section by rewriting links and fields,
  and is proved to keep step with the step machine.
* **Lists** (`List*.dfy`). A list element is an address; one object holds all `prev` and
  `next` fields, and the methods rewrite them as the C code does. `Chain` ties the links
  to a sequence. What the ordering operations compute is stated on sequences first.
* **Memory** (`Bitmap.dfy`, `Palloc.dfy`, `Malloc*.dfy`). The bitmap packs booleans into
  words; words are natural numbers with bit-by-bit operations (`Words.dfy`). The page
  allocator is a second step machine in which every test or write of one bit is a step,
  because pages are freed without taking the lock, and possibly in the middle of another
  call of the same thread. The block allocator is a state with
  its calls as functions, and a class that performs them with loops over a byte memory.
* **The rest** follows its source file: `Arithmetic.dfy`, `HashTable.dfy`, `HeapSort.dfy`,
  `PageEntry.dfy` and `Pagedir.dfy`, `UserSpace.dfy` and `Loader.dfy`, `Strtok.dfy` and
  `UserStack.dfy`, `Printf.dfy`, `ParseFormat.dfy` and `Atoi.dfy`, `Ustar.dfy`.  The loader
  works through the page tables of `Pagedir.dfy`.  `PrintfField.dfy`, `AtoiText.dfy` and
  `UstarLayout.dfy` say what is printed, read, stripped and laid out in terms of characters
  and positions alone.

Numbers are unbounded integers; where the C code can wrap or truncate, the model says so
(`U32`, `U64`, `I32`, `I64`, `Unsigned`, `ULONG_MAX`). Failing allocations, the contents
of files and the outcome of reads that race are parameters or free choices.

## Where the code needs a second look

The model follows the code in each of these.

* The comment on `bitmap_scan_and_flip` says that a count of zero returns 0; the code
  returns the start.  `ZeroCount` states that, so it is 0 exactly if the start is, and
  `ZeroCountNotZero` is an instance where it is not.
* `umod64` and `smod64` return 32-bit types, although the remainder of two 64-bit numbers
  need not fit.  `SafeDivisor` and `SafeSignedDivisor` give the divisors for which they are
  right on every dividend, exactly those up to 2^32 and up to 2^31 in magnitude;
  `LongRemainder` and `LongSignedRemainder` are operands for which they are not.
* `setup_stack` copies the command line with its null byte into an array that is as long as
  the line without it.  `CopyTooLong` states that the last byte written is outside that
  array for every line, and that an array of n bytes suffices exactly if n exceeds the
  length of the line.  The model's array has that byte.
* `thread_yield` compares priorities with the front of the ready list before it asks
  whether there is one. On an empty list either outcome of the test is allowed, and the
  thread may be preempted between the test and the rest; the theorems hold either way.
* A negative `*` width sets the minus flag only after minus has had its chance to cancel
  the zero flag, so a conversion can end up with both. `ParseConversion` states this, and
  `AtoiUndoesD` holds for such conversions too.  Zeros and spaces are then both filled in,
  and the field is wider than asked for: `FieldWidth` gives the exact condition and
  `ZeroAndMinusOverrun` an instance.
* With the grouping flag, `%d` puts commas into numbers of 1000 and more, and `atoi` stops
  at the first. `AtoiUndoesD` gives the exact condition.

## Model

| member | source | states |
|---|---|---|
| KernelRuns.RunOk | src/threads/thread.c:282-312 | the invariant of scheduler, semaphores, locks and conditions holds in every state of every run, whatever the interleaving |
| KernelRuns.NeverPanics | src/threads/thread.c:300-312 | in no run does an assertion of the scheduler fail: an unblocked thread was blocked, a switch finds a thread |
| KernelRuns.QueueExclusivity | src/threads/thread.h:79-84 | exactly one thread runs; a non-idle thread is ready iff it is on the ready list, once; a thread on a wait list is blocked and on no other list; the idle thread never re-enters the ready list |
| KernelRuns.FreedIsGone | src/threads/thread.c:614-641 | a thread whose page was freed is not current, not ready and on no wait list |
| KernelRuns.FreedForever | src/threads/thread.c:614-641 | and in every later state of the run it is still neither current nor ready |
| KernelRuns.SwitchPicksBest | src/threads/thread.c:589-595 | every switch picks a thread of highest priority, the longest-ready among equals, and idle only when nothing is ready |
| KernelCalls.TickPicksBest | src/threads/interrupt.c:386-387 | after a tick that makes the current thread give way the best thread runs |
| KernelCalls.YieldReturns | src/threads/thread.c:374-390 | when a yield that has begun is over, the best thread was picked, and the caller is ready if it is not that one |
| KernelCalls.CreateReturns | src/threads/thread.c:219-272 | when thread_create returns, the new thread is ready, at its start, with the priority asked for and no locks |
| KernelCalls.SetPriorityDoes | src/threads/thread.c:413-422 | thread_set_priority sets the caller's priority and changes nothing else before it yields |
| KernelCalls.ExitDoes | src/threads/thread.c:350-367 | a thread that exits has its page freed by the switch unless it is the initial thread, and in every later state it is dying, not current and not ready |
| KernelTurns.YieldRotates | src/threads/thread.c:374-390 | giving way, by a yield or by the timer and wherever the thread was, moves a thread of the highest priority to the end of the line of its equals, whatever else is ready |
| KernelTurns.RoundRobin | src/threads/thread.c:374-390 | over any part of any run in which threads of the highest priority only give way or do what the scheduler does not notice, the line is rotated by exactly the number of switches, and lower priorities never run |
| KernelTurns.NthInLine | src/threads/thread.c:374-390 | after n switches the thread that was n-th in line, counted round and round, runs |
| KernelTurns.TicksSwitch | src/threads/thread.c:377-379 | while such a thread has an equal, every tick that asks to yield switches, and so does an undisturbed call of thread_yield |
| KernelRuns.NoLostWakeUp | src/threads/synch.c:61-121 | with waiters queued, the value is at most the number of woken threads still to test; those are ready or running; value = initial + ups - downs, which ValueCounts counts along the run |
| KernelCalls.UpsDo | src/threads/synch.c:109-121 | every up in every run, by a thread or an interrupt handler, for a semaphore, a lock or a condition: the value rises by one; the first waiter, if any, leaves the queue and becomes ready, and nobody else; no other semaphore, no lock and no condition changes |
| KernelCalls.TestsDo | src/threads/synch.c:61-102 | every test of a value in every run: a positive value is taken, one down and nothing else; on zero a down queues its caller last, blocked, with another thread running, and a try does nothing |
| KernelCalls.ValueCounts | src/threads/synch.c:61-121 | in every state the value of a semaphore or lock is its initial one plus the number of ups among the steps so far minus the number of downs among them |
| KernelCalls.DownReturns | src/threads/synch.c:61-76 | between a call of sema_down and its return the caller takes from the semaphore exactly once, in its last step |
| KernelCalls.TryDownReturns | src/threads/synch.c:84-102 | sema_try_down takes exactly if the value was positive, otherwise changes nothing, and returns at once |
| KernelRuns.MutualExclusion | src/threads/synch.c:193-236 | semaphore value plus owners of a lock is always one; a non-null holder is the owner; the owner is the holder except in the two windows where the field lags; that calls get and give up ownership is stated by AcquireReturns, TryAcquireReturns and ReleaseReturns |
| KernelCalls.AcquireReturns | src/threads/synch.c:193-201 | when lock_acquire returns, its caller, who did not own the lock at the call, owns it and is its holder |
| KernelCalls.TryAcquireReturns | src/threads/synch.c:210-221 | lock_try_acquire returns as owner and holder exactly if the lock was free at the call; otherwise nothing has changed |
| KernelCalls.ReleaseReturns | src/threads/synch.c:229-236 | when lock_release returns, its caller does not own the lock any more, and the lock's semaphore has gone from zero to one by exactly one up since the call |
| KernelRuns.SignalNotLost | src/threads/synch.c:288-322 | a waiting thread is queued and unsignalled, or popped by one signaller whose up is pending, or upped once and then not asleep; exactly one of these |
| KernelRuns.SignalTargetIsLive | src/threads/synch.c:312-322 | the private semaphore a signaller is about to up still exists, and no other signaller is about to up it |
| KernelRuns.WaitReturnsHolding | src/threads/synch.c:288-302 | a wait returns as owner and holder of the lock, its semaphore upped once and downed once |
| KernelCalls.WaitReturns | src/threads/synch.c:288-302 | cond_wait queues its caller last with a fresh semaphore, awaits that semaphore without owning the lock, and returns in no queue, owning and holding the lock, its semaphore upped once and downed once |
| KernelCalls.WaitReleases | src/threads/synch.c:288-302 | and on the way its caller has made an up of the lock's semaphore |
| KernelCalls.SignalReturns | src/threads/synch.c:312-322 | cond_signal with nobody queued changes nothing; otherwise it pops the first waiter, leaves the other conditions alone, and when it returns it has made the one up of that waiter's semaphore |
| KernelCalls.BroadcastReturns | src/threads/synch.c:331-338 | when cond_broadcast returns, the signals since its call are the waiters queued at its call, in order, nobody is queued, and whoever still waits has had its up |
| KernelRuns.SignalledInOrder | src/threads/synch.c:312-322 | the signals so far followed by the queue are the waits so far, in order |
| KernelRuns.BroadcastBegan | src/threads/synch.c:331-338 | a broadcast under way was called at an earlier step, by the same thread, on the queue it noted, and the thread has been in it in every state since |
| KernelRuns.BroadcastIsExact | src/threads/synch.c:331-338 | when a broadcast ends it has popped exactly the waiters that were queued at its own call, in order, and every thread still waiting has had its up |
| KernelLists.NodesApart | src/threads/thread.h:79-84 | queues that share no thread, or that link different kinds of element, share no memory |
| KernelLists.OneQueue | src/threads/thread.h:79-84 | writes to the nodes of one queue and to an element in no queue leave every other queue's list alone |
| KernelLists.FlatIsSound | src/threads/thread.h:79-84 | there is a way to place all elements and headers |
| KernelLists.PushBack | src/lib/kernel/list.c:216-219 | an element in no queue joins the end of one, and memory holds the new view of all queues |
| KernelLists.InsertOrdered | src/lib/kernel/list.c:446-459 | the same for an ordered insertion |
| KernelLists.PopFront | src/lib/kernel/list.c:259-264 | the first thread leaves its queue and is then in none that links such elements |
| KernelLists.InitQueue | src/lib/kernel/list.c:61-68 | an initialised queue is empty, and the others are as before |
| KernelMachine.InQueue | src/threads/thread.h:79-84 | where a thread is determines the one queue it is in |
| KernelMachine.ListsApart | src/threads/thread.h:79-84 | in every state of every run the lists of different queues share no memory |
| KernelMachine.PlaceIsPosition | src/threads/thread.c:203-216 | list_insert_ordered with prioritycmp stops where the step machine puts the thread |
| KernelMachine.Machine.constructor | src/threads/thread.c:141-154 | the initialised lists, with the idle thread ready, are those of the initial state |
| KernelMachine.Machine.EnqueueReady | src/threads/thread.c:300-312 | the links of the ready list become those of the step machine's, and all other lists stay |
| KernelMachine.Machine.Reschedule | src/threads/thread.c:589-664 | unlinks the front of the ready list or takes idle, switches, and frees a thread that died |
| KernelMachine.Machine.ThreadYield | src/threads/thread.c:374-390 | links the current thread behind its equals and switches |
| KernelMachine.Machine.SemaUp | src/threads/synch.c:109-121 | unlinks the first waiter, links it into the ready list by priority, and counts |
| KernelMachine.Machine.SemaDownRound | src/threads/synch.c:61-76 | takes the value, or links the current thread to the end of the wait list and switches |
| KernelMachine.Machine.CondWaitEnqueue | src/threads/synch.c:288-302 | initialises the private semaphore's list and links its element to the condition's |
| KernelMachine.Machine.CondSignalPop | src/threads/synch.c:312-322 | unlinks the first waiter of the condition |
| KernelMachine.Machine.ThreadCreate | src/threads/thread.c:219-272 | a new thread has elements without links and is in no queue |
| KernelMachine.CanBeDone | src/threads/thread.c:282-312 | in every state a run can reach, the element a section links is in no list and its assertions hold |
| KernelMachine.Machine.Perform | src/threads/synch.c:61-338 | from any state a run can reach, the link and field writes of any step leave all queues linked as the step machine says |
| ListOrder.RunLenIs | src/lib/kernel/list.c:358-374 | a run ends at the first descent and not before |
| ListOrder.MergeMultiset | src/lib/kernel/list.c:380-399 | a merge keeps the elements |
| ListOrder.MergeSorted | src/lib/kernel/list.c:380-399 | a merge of sorted ranges is sorted |
| ListOrder.MergeStable | src/lib/kernel/list.c:380-399 | a merge keeps equal elements in order, those of the first range first |
| ListOrder.PassHalves | src/lib/kernel/list.c:405-440 | a pass over R runs produces exactly (R + 1) / 2 |
| ListOrder.PassJoins | src/lib/kernel/list.c:405-440 | the list a pass leaves has no more runs than the pass produced |
| ListOrder.SortCorrect | src/lib/kernel/list.c:405-440 | for every strict weak order the result is sorted, has the same elements and keeps equal ones in order |
| ListOrder.FewPasses | src/lib/kernel/list.c:401-404 | 2^n runs take at most n + 1 passes |
| ListOrder.StableUnique | src/lib/kernel/list.c:405-440 | there is only one sorted stable arrangement |
| ListOrder.InsertCorrect | src/lib/kernel/list.c:446-459 | ordered insertion keeps a list sorted and goes behind equal elements |
| ListOrder.SortIsInsertAll | src/lib/kernel/list.c:405-459 | sorting equals inserting one by one |
| ListOrder.UniqueCorrect | src/lib/kernel/list.c:466-486 | kept and removed elements together are the list, kept neighbours differ, each removed one equals a kept one |
| ListOps.ReverseTwice | src/lib/kernel/list.c:326-337 | reversing twice is the identity |
| ListOps.ListHeap.ListInit | src/lib/kernel/list.c:61-68 | the two headers form an empty chain |
| ListOps.ListHeap.ListInsert | src/lib/kernel/list.c:169-178 | the chain has the element in front of the given one, by exactly four writes |
| ListOps.ListHeap.ListRemove | src/lib/kernel/list.c:249-255 | the chain lacks the element, and the element behind it is returned |
| ListOps.ListHeap.ListSplice | src/lib/kernel/list.c:184-204 | a segment moves within one list or between two, both stay chains, nothing else changes |
| ListOps.ListHeap.FindEndOfRun | src/lib/kernel/list.c:358-374 | returns the element behind the run, in any range of a list |
| ListOps.ListHeap.InplaceMerge | src/lib/kernel/list.c:380-399 | splicing leaves the chain of the merged sequence and touches no other element |
| ListOps.ListHeap.SortPass | src/lib/kernel/list.c:405-440 | one pass leaves the chain of `Pass` and counts its runs |
| ListOps.ListHeap.ListSort | src/lib/kernel/list.c:405-440 | terminates and leaves the chain of the sorted sequence; elements outside the list are untouched |
| ListOps.ListHeap.ListInsertOrdered | src/lib/kernel/list.c:446-459 | leaves the chain of the ordered insertion |
| ListOps.ListHeap.ListUnique | src/lib/kernel/list.c:466-486 | leaves the kept elements in the list, appends the others to the list of duplicates, if there is one, and touches nothing outside the two |
| ListOps.ListHeap.ListReverse | src/lib/kernel/list.c:326-337 | swapping links in place leaves the chain of the reversed sequence |
| Arithmetic.Divl | src/lib/arithmetic.c:26-37 | the instruction's contract: it traps unless the quotient fits 32 bits |
| Arithmetic.Nlz | src/lib/arithmetic.c:42-73 | the number of doublings until the top bit is set |
| Arithmetic.LeadingZerosIs | src/lib/arithmetic.c:42-73 | a word with n leading zeros lies in [2^(31-n), 2^(32-n)) |
| Arithmetic.SmallDivisor | src/lib/arithmetic.c:80-112 | with a 32-bit divisor neither division traps and together they give the exact quotient |
| Arithmetic.Estimate | src/lib/arithmetic.c:113-126 | dropping the divisor's low bits raises the quotient by at most one |
| Arithmetic.Candidates | src/lib/arithmetic.c:113-126 | the divide does not trap and the estimate is the quotient or one more |
| Arithmetic.Correct | src/lib/arithmetic.c:113-126 | the comparison picks the quotient, and nothing in it wraps |
| Arithmetic.Udiv64 | src/lib/arithmetic.c:77-128 | the exact floor quotient for all 64-bit n and nonzero d |
| Arithmetic.Umod64 | src/lib/arithmetic.c:130-135 | the remainder modulo 2^32, which is the remainder for every divisor up to 2^32 |
| Arithmetic.Sdiv64 | src/lib/arithmetic.c:137-146 | truncates toward zero, except for INT64_MIN / -1, which wraps |
| Arithmetic.Smod64 | src/lib/arithmetic.c:148-154 | the remainder with the sign of the dividend, cut to 32 bits; exact for every divisor up to 2^31 in magnitude |
| Arithmetic.LongRemainder | src/lib/arithmetic.c:130-135 | operands whose remainder does not fit |
| Arithmetic.SafeDivisor | src/lib/arithmetic.c:130-135 | umod64 returns the remainder for every dividend iff the divisor is at most 2^32 |
| Arithmetic.SafeSignedDivisor | src/lib/arithmetic.c:148-154 | smod64 does iff the divisor is at most 2^31 in magnitude |
| Arithmetic.LongSignedRemainder | src/lib/arithmetic.c:148-154 | operands whose signed remainder does not fit |
| Bitmap.Bitmap.Mark | src/lib/kernel/bitmap.c:158-167 | or-ing the mask into a word sets that bit and no other |
| Bitmap.Bitmap.Reset | src/lib/kernel/bitmap.c:171-180 | and-ing the complement clears that bit and no other |
| Bitmap.Bitmap.Flip | src/lib/kernel/bitmap.c:186-195 | xor-ing the mask flips that bit and no other |
| Bitmap.Bitmap.Test | src/lib/kernel/bitmap.c:199-204 | the masked word is nonzero iff the bit is set |
| Bitmap.Bitmap.SetMultiple | src/lib/kernel/bitmap.c:219-229 | the range has the value, the rest is unchanged |
| Bitmap.Bitmap.Count | src/lib/kernel/bitmap.c:234-247 | the number of bits in the range with the value |
| Bitmap.Bitmap.Contains | src/lib/kernel/bitmap.c:252-264 | false iff all bits of the range have the other value |
| Bitmap.Bitmap.Scan | src/lib/kernel/bitmap.c:297-311 | the first fit, or an error iff there is none |
| Bitmap.Bitmap.ScanAndFlip | src/lib/kernel/bitmap.c:321-327 | takes the first fit and touches nothing else |
| Bitmap.FirstFitUnique | src/lib/kernel/bitmap.c:290-296 | the first fit is unique |
| Bitmap.ZeroCount | src/lib/kernel/bitmap.c:297-327 | a search for no bits returns the start, which is 0 iff it starts at 0 |
| Bitmap.ZeroCountNotZero | src/lib/kernel/bitmap.c:313-320 | an instance in which it does not return 0 |
| Palloc.RunOk | src/threads/palloc.c:71-142 | in every interleaving, with frees by any party, of any holder's pages and in the middle of any call, each used bit has exactly one claim, clear bits have none, and bits the getter relies on stay clear |
| Palloc.NoTwoHolders | src/threads/palloc.c:71-142 | no page has two holders, and none is held while being given back |
| Palloc.GivenBackOnce | src/threads/thread.c:631-640 | a page is given back by one call at a time, also when the switch frees it inside another call of the same thread |
| Palloc.HandedOutOnce | src/threads/palloc.c:71-101 | pages handed out were held by nobody |
| Palloc.NeverPanics | src/threads/palloc.c:140-141 | the assertion that freed pages are in use never fails |
| Palloc.QuiescentExact | src/threads/palloc.c:71-142 | when no call is under way, a bit is set iff its page is held; what a finished call has reset is stated by FreedWhenDone |
| Palloc.PutTakesAway | src/threads/palloc.c:118-142 | from the moment pages are given back nobody holds them, and nobody else's pages and no bit change |
| Palloc.FreedWhenDone | src/threads/palloc.c:118-142 | when a call that gives pages back is over, it has reset the bit of every one of them, each set until then |
| Palloc.ClearsItsOwn | src/threads/palloc.c:140-141 | a bit that a step clears was set, and belonged to the call that the step is part of |
| Palloc.AloneFrees | src/threads/palloc.c:118-142 | an undisturbed call clears exactly the bits of its pages and takes exactly them from their holder; all else is as before |
| Palloc.PutUndoesGet | src/threads/palloc.c:71-142 | getting pages and giving them back leaves every bit and everyone's pages as they were |
| Palloc.AloneIsFirstFit | src/threads/palloc.c:82-84 | an undisturbed call takes the first fit and fails only when there is none |
| Palloc.BitmapFits | src/threads/palloc.c:154-170 | a pool's bitmap fits the pages set aside for it, and the pool's pages follow |
| Palloc.UserShare | src/threads/palloc.c:45-62 | the user pool's share is the largest number of pages within the limit and within half of them |
| Palloc.LocateInverts | src/threads/palloc.c:118-142 | the address of page i of either pool leads back to that pool and to i, and lies in RAM |
| MallocHeap.MallocInit | src/threads/malloc.c:72-85 | seven descriptors, 16 to 1024 bytes |
| MallocProof.ArenaBlocks | src/threads/malloc.c:286-294 | an arena's blocks are exactly the aligned addresses in its page, each once |
| MallocProof.AllFree | src/threads/malloc.c:242-246 | the free count reaches the number of blocks only when all are free, and never exceeds it |
| MallocRuns.PickIs | src/threads/malloc.c:104-106 | the smallest descriptor that is large enough |
| MallocRuns.MallocKeeps | src/threads/malloc.c:90-154 | a call keeps the invariant and adds one block that was not live, or fails and changes nothing, and when it fails |
| MallocRuns.FreeKeeps | src/threads/malloc.c:219-264 | a call keeps the invariant, removes that block and no other, and the assertion at line 246 holds |
| MallocRuns.ReallocKeeps | src/threads/malloc.c:195-214 | the new block replaces the old one, or nothing changes; a zero size frees |
| MallocRuns.RunOk | src/threads/malloc.c:90-264 | the invariant holds after any sequence of calls |
| MallocRuns.BlockInside | src/threads/malloc.c:268-294 | a live block is as large as asked, behind the header and inside its pages |
| MallocRuns.LiveApart | src/threads/malloc.c:90-154 | live blocks are disjoint |
| MallocRuns.ClearOfOwn | src/threads/malloc.c:90-154 | no live block touches a header or a free block |
| MallocRuns.KeptForALiveBlock | src/threads/malloc.c:242-255 | an arena is kept only while some block in it is live |
| MallocHeap.BlockHeap.Malloc | src/threads/malloc.c:90-154 | the code does what the function says and leaves the bytes of all live blocks alone |
| MallocHeap.BlockHeap.Free | src/threads/malloc.c:219-264 | the same for free, with the arena's blocks taken off the list one by one |
| MallocHeap.BlockHeap.TakeBlocks | src/threads/malloc.c:247-251 | removing the arena's blocks leaves the list without them, otherwise in order |
| MallocHeap.BlockHeap.Realloc | src/threads/malloc.c:195-214 | the first bytes move along and every other block keeps its own; a call that fails leaves every byte of every block |
| HashTable.TurnOffTop | src/lib/kernel/hash.c:328-333 | clearing the lowest 1 bit makes the number smaller and keeps the highest 1 bit unless it is the same |
| HashTable.PowerTest | src/lib/kernel/hash.c:335-340 | the test accepts exactly the powers of two |
| HashTable.SlotInRange | src/lib/kernel/hash.c:306-310 | masking is the remainder, so the bucket exists |
| HashTable.Table.Lookup | src/lib/kernel/hash.c:306-326 | what is found in one bucket is what is equal in the whole table |
| HashTable.Table.Find | src/lib/kernel/hash.c:132-135 | an equal element iff there is one |
| HashTable.Table.Insert | src/lib/kernel/hash.c:99-110 | adds the element iff no equal one is there, which is returned otherwise |
| HashTable.Table.Replace | src/lib/kernel/hash.c:115-127 | the new element takes the place of an equal one |
| HashTable.Table.Delete | src/lib/kernel/hash.c:145-154 | removes exactly the equal element |
| HashTable.Table.BestCount | src/lib/kernel/hash.c:366-376 | the largest power of two up to half the elements, at least four |
| HashTable.Table.Rehash | src/lib/kernel/hash.c:352-413 | contents stay whether or not memory is had, and every element is in its bucket |
| HashTable.FlatIsBag | src/lib/kernel/hash.c:200-235 | the order of iteration holds the table's contents |
| HashTable.Cursor.Next | src/lib/kernel/hash.c:219-235 | delivers the next element of the order, and says when there is none |
| HashTable.Walk | src/lib/kernel/hash.c:182-198 | the documented loop sees every element exactly once |
| PageEntry.AddressFields | src/threads/pte.h:32-39 | the three fields of an address are its digits and give it back |
| PageEntry.PdeRoundTrip | src/threads/pte.h:71-81 | a directory entry leads back to its table and is present |
| PageEntry.PteRoundTrip | src/threads/pte.h:87-104 | a page entry holds its page and permission, and clear dirty and accessed bits |
| Pagedir.PageMemory.PagedirCreate | src/userprog/pagedir.c:17-23 | the new directory has the kernel's half and no user page; the others do not notice |
| Pagedir.PageMemory.LookupPage | src/userprog/pagedir.c:57-86 | fails iff there is no table and none can be had; changes no entry |
| Pagedir.PageMemory.PagedirSetPage | src/userprog/pagedir.c:99-119 | sets that entry and no other of any directory, or fails and changes nothing |
| Pagedir.PageMemory.PagedirGetPage | src/userprog/pagedir.c:126-137 | the translation of the address |
| Pagedir.PageMemory.PagedirClearPage | src/userprog/pagedir.c:144-157 | clears the present bit and keeps the others |
| Pagedir.PageMemory.PagedirIsDirty | src/userprog/pagedir.c:164-168 | bit 6 of the entry |
| Pagedir.PageMemory.PagedirSetDirty | src/userprog/pagedir.c:173-186 | changes bit 6 of that entry and nothing else |
| Pagedir.PageMemory.PagedirIsAccessed | src/userprog/pagedir.c:193-197 | bit 5 of the entry |
| Pagedir.PageMemory.PagedirSetAccessed | src/userprog/pagedir.c:202-215 | changes bit 5 of that entry and nothing else |
| Pagedir.PageMemory.PagedirDestroy | src/userprog/pagedir.c:28-48 | frees each page once and keeps the other directories in order |
| Pagedir.EntryKeeps | src/userprog/pagedir.c:99-215 | writing an entry keeps all directories in order, with the kernel's half that of init_page_dir |
| Pagedir.EntryOther | src/userprog/pagedir.c:99-215 | writing an entry of one directory changes no user entry of another |
| Pagedir.SetThenTranslate | src/userprog/pagedir.c:99-137 | after a page is set every address in it translates into the frame |
| Pagedir.PagesHaveEntries | src/threads/pte.h:32-39 | two addresses share an entry iff they share a page |
| Pagedir.DestroyFreesOnce | src/userprog/pagedir.c:28-48 | the pages freed are the directory, its user tables and its present frames, without repetition |
| Loader.ValidateIs | src/userprog/process.c:433-473 | a segment passes iff it is congruent, within the file, not empty, and between page 1 and the kernel without wrapping |
| Loader.SegmentArithmetic | src/userprog/process.c:377-399 | no sum or difference wraps, and the counts make whole pages below the kernel |
| UserSpace.PageAdded | src/userprog/pagedir.c:99-119 | setting one entry adds exactly that page, with its frame and permission, to what the process sees |
| UserSpace.ThroughTables | src/userprog/pagedir.c:126-137 | what the process sees is what it reads through its page tables |
| UserSpace.AddressSpace.InstallPage | src/userprog/process.c:654-662 | by the two-level tables: adds the page iff nothing is mapped there and the table is there or can be had |
| UserSpace.AddressSpace.AddPage | src/userprog/process.c:507-526 | a frame is filled and installed, or given back with nothing changed |
| Loader.LoadSegment | src/userprog/process.c:490-532 | succeeds iff frames, the missing page tables and the file suffice and no page of the range is mapped; then every byte is the file's or zero, with the permission asked for; in either case only pages of the range are added |
| Loader.LoadPhdr | src/userprog/process.c:377-405 | exactly when a segment loads; then file byte offset + k is at vaddr + k and zeros follow; only user pages above page 0 are ever touched |
| Strtok.TokensAreWords | src/lib/string.c:235-275 | tokens are not empty and hold no delimiter |
| Strtok.JoinThenSplit | src/lib/string.c:235-275 | splitting undoes joining with any delimiter |
| Strtok.SplitLaw | src/lib/string.c:235-275 | however words are spaced, with any delimiters before, between and behind them, exactly they are found |
| Strtok.LayOut | src/lib/string.c:235-275 | every line is spaced in such a way |
| Strtok.StrtokR | src/lib/string.c:235-275 | for any delimiters, takes the first token, leaves the rest, and changes nothing outside the part consumed |
| Strtok.Split | src/userprog/process.c:569-577 | repeated calls collect all tokens in order, all still readable |
| Strtok.Strlcpy | src/lib/string.c:326-343 | the prefix that size allows, terminated, and nothing beyond the last place written |
| UserStack.ShortLine | src/userprog/process.c:539-642 | any line of at most 99 characters fits the page |
| UserStack.CopyTooLong | src/userprog/process.c:559-561 | the copy of the line writes outside its array for every line; n bytes suffice iff n exceeds the length |
| UserStack.ImageReads | src/userprog/process.c:539-642 | from the image a process reads argc, each argument in order and a null, with a word-aligned stack pointer |
| UserStack.AlignIs | src/userprog/process.c:599-608 | the signed remainder asks for exactly the filler that aligns |
| UserStack.Stack.PushArgs | src/userprog/process.c:579-597 | the arguments are at the top of the stack and their addresses recorded |
| UserStack.Stack.Align | src/userprog/process.c:599-608 | pushes that filler |
| UserStack.Stack.SetupStack | src/userprog/process.c:539-642 | stays inside the zeroed page and leaves the image |
| Printf.DigitsLength | src/lib/stdio.c:506-513 | a number below 8^k takes at most 2k places |
| Printf.FormatInteger | src/lib/stdio.c:470-547 | for every 64-bit value, base and conversion the 64-byte buffer suffices and the output is the field that FieldLaw describes |
| PrintfField.DigitsWrite | src/lib/stdio.c:503-513 | in every base the digits, commas dropped, write the value with each character's usual digit value and the case asked for, without leading zeros, and with commas exactly between groups |
| PrintfField.FieldLaw | src/lib/stdio.c:482-547 | by position: spaces in front exactly without - and 0, the sign the flags ask for, 0x exactly if asked for a nonzero base 16 number, zeros for the width exactly with 0, zeros for the precision or octal, the number, spaces behind exactly with -, and nothing else |
| PrintfField.FieldWidth | src/lib/stdio.c:528-546 | a field has the larger of its width and its natural length, exactly unless - and 0 are both set and the width is larger |
| PrintfField.ZeroAndMinusOverrun | src/lib/stdio.c:528-546 | the exception occurs |
| Printf.Vsnprintf | src/lib/stdio.c:26-52 | stores exactly the prefix that fits, terminates it, and returns the full length |
| ParseFormat.ParseFlags | src/lib/stdio.c:345-371 | a flag is set iff its character occurs in the run of flags |
| ParseFormat.ParseConversion | src/lib/stdio.c:340-460 | flags, width, precision and length modifier as their parts of the text say, which flags survive, and where the conversion ends |
| ParseFormat.SnprintfD | src/lib/stdio.c:62-73 | with a %d or %i conversion of any flags, width and precision, the buffer holds the field if it fits |
| ParseFormat.PrintThenRead | src/lib/stdlib.c:10-41 | from parsing the format through formatting and the buffer to atoi: the int comes back iff grouping put in no comma; plain %d fits 12 bytes |
| Atoi.ReadInt | src/lib/stdlib.c:10-41 | the number, without overflow on the way when it fits an int |
| AtoiText.AtoiLaw | src/lib/stdlib.c:10-41 | white space, a sign or none, decimal digits and a rest that continues none of them: the result is the number the digits write, with that sign |
| AtoiText.EveryText | src/lib/stdlib.c:10-41 | every text is of that form |
| Atoi.DigitsRead | src/lib/stdio.c:506-513 | the digits of a number are read back as the number |
| Atoi.ThousandsLost | src/lib/stdio.c:508-509 | with grouping, 1000 and above is read back too small |
| Atoi.AtoiUndoesD | src/lib/stdlib.c:10-41 | for every int and every %d conversion atoi gives the int back, except iff grouping put in a comma |
| Atoi.GroupedThousand | src/lib/stdio.c:508-509 | the exception occurs |
| HeapSort.FloatDown | src/lib/stdlib.c:96-123 | swapping the greatest of three up moves the only place out of order down |
| HeapSort.Heapify | src/lib/stdlib.c:96-123 | the subtree becomes a heap of the same elements, and nothing beyond it changes |
| HeapSort.RootGreatest | src/lib/stdlib.c:146-151 | the root of a heap is nowhere exceeded |
| HeapSort.Sort | src/lib/stdlib.c:131-152 | for every strict weak order the array is sorted and a permutation of what it was |
| HeapSort.BinarySearch | src/lib/stdlib.c:184-207 | an equal element, or none exactly if there is none |
| Ustar.CalculateChksum | src/lib/ustar.c:37-54 | the sum that SumIs describes |
| UstarLayout.SumIs | src/lib/ustar.c:37-54 | all bytes but the eight of the checksum field add up, and those count as spaces |
| Ustar.StripAntisocialPrefixes | src/lib/ustar.c:66-73 | the loop ends and computes the stripped name that StripLaw describes |
| Ustar.StripIs | src/lib/ustar.c:66-73 | a stripped name is not empty, does not climb, and is stripped no further |
| Ustar.StripIsSuffix | src/lib/ustar.c:56-65 | it is a suffix of the name or "." |
| UstarLayout.StripOf | src/lib/ustar.c:66-73 | of any sequence of "/", "./" and "../" in front of a name that starts with none of them exactly the sequence is taken away, and what is left stays unless it is empty or ".." |
| UstarLayout.StripLaw | src/lib/ustar.c:66-73 | every name is of that form; the result is "." exactly if what is left is empty, ".." or "."; a name with no such prefix, not empty and not "..", is unchanged |
| Ustar.MakeHeader | src/lib/ustar.c:83-118 | fails iff the stripped name is over 99 bytes, and otherwise writes the header |
| UstarLayout.HeaderLaw | src/lib/ustar.c:10-34 | every byte of a made header by its offset: name, mode, ids, size, time, checksum, type, magic, version, owner names, and zeros elsewhere |
| Ustar.DigitsArePrinted | src/lib/ustar.c:99-105 | the octal digits are those the formatter prints for "%0no" |
| Ustar.ParseOctalField | src/lib/ustar.c:130-162 | the value of a terminated octal field |
| Ustar.FieldRead | src/lib/ustar.c:130-162 | a field holds the number printed into it |
| UstarLayout.OctalLaw | src/lib/ustar.c:130-162 | a field is parsed as v exactly if it is one or more octal digits for v, at most 2^32 - 1, and then a space or a null |
| Ustar.RoundTrip | src/lib/ustar.c:83-227 | parsing a made header gives the stripped name, the type and the size (0 for a directory); a negative regular size is "file too large" |
| Ustar.OneByteWrong | src/lib/ustar.c:182-227 | an accepted header with any one byte changed outside the checksum is rejected |
| UstarLayout.ParseLaw | src/lib/ustar.c:182-227 | a block of zeros ends the archive; another is accepted exactly if magic, version, checksum, name, type and a regular file's size are right, and then gives what the header holds |

## Left out

- Palloc.HandedOutOnce: the machine has one getter at a time, as the pool's lock ensures; it takes mutual exclusion from the lock theorem instead of running the lock's own steps
- MallocRuns.RunOk: calls are atomic; each runs under its descriptor's lock, and interleavings of calls on different descriptors are not stepped through
- MallocRuns.MallocKeeps: request sizes so large that adding the header wraps 32 bits are outside the model, whose sizes do not wrap
- HashTable.Table.Insert: the element count stays below 2^32, as it must in a 32-bit address space
- UserStack.Stack.SetupStack: the path on which the page cannot be had is not modelled; the command line must fit the page and have at most 130 words, for which there are arrays, and every line of up to 99 characters does (ShortLine)
- Loader.LoadSegment: the file is a sequence of bytes and a read returns what is there; the answers of the page allocator are a parameter; a failing disk and the file system are not part of this model
- ParseFormat.SnprintfD: formats other than one %d or %i of an int are turned down; variable arguments, %s, %c, %p and text around conversions are not modelled
- HeapSort.Sort: elements are swapped whole, not byte by byte
- Threads are named by number and a name is never reused, so nothing is said about a page that is reused for a new thread while its lock is still marked as held
- The semaphore value is unbounded, so an up that wraps the 32-bit counter is not modelled
- Pagedir.PageMemory.PagedirDestroy: no frame is mapped twice in the directory, as callers must see to, since the code would free it twice
- Priority donation, which the source does not have, and the multi-level feedback scheduler, of which it has only the option
- The list of all threads, thread names, tick accounting, stack frames and the context switch itself
- process_execute, process_wait, process_exit, system calls, file system and devices
- calloc, the bitmap's file input and output, hash_clear and hash_apply, list_max and list_min: they would add easy members
- TLB flushes, CR3 loads and other processor state

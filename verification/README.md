# A verified model of the bboy base and gbase libraries

This project models the parts of the libraries under `src/bboy` whose correctness is not visible from one function
body, and proves what they are for. Every file is one module.

- **Memory accounting.** `MemTracker.dfy` has the tracker tree as objects that are updated in place: creation and
  destruction of trackers, `Consume`, `Release`, `TryConsume` with callbacks in the middle of its walk and the rollback.
  The effect of an operation is a list of *postings* (bytes at a tracker); `Posted` says that the counters moved by
  exactly these, at the tracker and all its ancestors, and conservation follows from it for any list.
  `TrackerRuns.dfy` has the same tree with any number of threads, one atomic step at a time, `TrackerRequests.dfy` ties
  its runs to what was asked, `TrackerCrowding.dfy` says on which trees its attempts can disturb each other, and
  `HighWaterMark.dfy` has the counter itself with its compare-and-set loops.
- **Wide words and bit tricks.** `Uint128.dfy` shows that two 64-bit halves compute modulo 2^128 and where the code does
  not; `ByteWords.dfy` that the tests of all bytes of a word at once are right and when one of them is not;
  `SidewaysAddition.dfy`, `HammingBits.dfy` and `BitPositions.dfy` cover counting and finding bits. `Bitwise.dfy` holds
  the bit operations on natural numbers these build on.
- **Protocols.** `Once.dfy` and `StackDump.dfy` are step systems of `GoogleOnceInit` and of the signal handshake that
  collects a stack from another thread, for any number of threads and any schedule; `StackDumpAnswers.dfy` says which
  answer a dump gives.
- **Memory structures.** `ObjectPool.dfy` (two intrusive lists over one set of nodes) and `FastString.dfy` (a byte
  string that grows by half, with the cost of its copies).
- **Random numbers.** `Random.dfy` has the generator, its full cycle over all seeds (the multiplier is a primitive root;
  `NumberTheory.dfy` has what that needs), and reservoir sampling.
- **Files and paths.** `WritableFile.dfy` runs `PosixWritableFile` over a file whose system calls may fail, be
  interrupted or write less than asked. `Paths.dfy` splits and joins paths and creates directories.

Machine words are natural numbers with the wrap-around written out. A call into the system, and anything a callback or
a scheduler decides, is an arbitrary choice, so the results hold for every such choice.

## What the proofs found

Where the code and its comments disagree, the model follows the code.

- `uint128::operator>>=` clears `hi_` before it reads it for shifts from 64 to 127, so it loses the upper half there
  (src/bboy/gbase/int128.h:248-250). It is right exactly when the shift is below 64, at least 128, or moves everything out.
- `BytesAllInRange` with a range of more than 128 values calls the less-than test on a promoted `int` for words of one
  or two bytes. It then says no for every word, unless the range is all of 0..255 (src/bboy/gbase/bits.h:261-262).
- `ReservoirSample` promises the input order (src/bboy/base/random.h:121-122). Over all seeds of the generator the
  order is kept exactly when nothing is replaced or there is at most one slot.
- The failure exit of `DumpThreadStack` leaves `result_ready` set if a late signal raised it
  (src/bboy/base/debug_util.cc:232-238). The next dump is genuine in every continuation exactly if the flag is clear
  before it; otherwise the next dump of any thread can return the stale stack.
- `DumpThreadStack` takes an `int64_t` but stores a `pid_t` and compares both later
  (src/bboy/base/debug_util.cc:211, 226, 255). A CHECK can fail exactly if somebody asks for a thread id that the
  conversion changes into a positive one.
- `TryConsume` is all or nothing for one thread, but not atomic between threads: an attempt that is about to be rolled
  back can make another one fail (src/bboy/base/mem_tracker.cc:307-347). That can happen on a tree of trackers exactly
  if a tracker with a limit has an ancestor with a limit.
- Appending a part of a `faststring` to itself is right as long as the buffer stays or is the inner one; when a heap
  buffer grows, the bytes are read after it was deleted (src/bboy/base/faststring.cc:17-33, src/bboy/base/faststring.h:75-89).
- `Sync` clears the pending flag before it syncs, so after a failed sync the next one answers OK without doing anything
  (src/bboy/base/env_posix.cc:388-397). `Close` truncates a preallocated file but syncs the truncation only if something
  else was pending, although the comment says otherwise (src/bboy/base/env_posix.cc:345-363).

## Model

| member | source | states |
|---|---|---|
| MemTracking.MemTracker.TryConsume | src/bboy/base/mem_tracker.cc:296-348 | what is left behind is what the callbacks did and, on success only, one posting of the bytes; conservation is kept; without callbacks it succeeds exactly if the bytes fit into the spare capacity, and with them whenever they do; if it fails, some tracker of the path still lacks the room, and every callback of it was called last, in order, unless its limit is below the amount; if it succeeds and the callbacks only released, every tracker of the path is within its limit |
| MemTracking.MemTracker.Attempt | src/bboy/base/mem_tracker.cc:307-347 | the same for the walk and the rollback, for a positive amount: all trackers of the path or none |
| MemTracking.MemTracker.Walk | src/bboy/base/mem_tracker.cc:307-331 | when the top-down walk stops at position i, exactly the trackers above i hold the bytes in addition to what the callbacks did |
| MemTracking.MemTracker.Rollback | src/bboy/base/mem_tracker.cc:344-346 | taking back the reserved positions leaves nothing but what the callbacks did in the meantime |
| MemTracking.MemTracker.Reserve | src/bboy/base/mem_tracker.cc:310-329 | one tracker of the walk: it takes the bytes exactly if they fit after its callbacks; these are called only if the bytes did not fit before and the limit is not below the amount, and all of them if it refuses |
| MemTracking.MemTracker.GcMemory | src/bboy/base/mem_tracker.cc:454-482 | the callbacks called are the first of the list, in order, up to the one after which the tracker is at the goal; all of them if it stays above, and none if it was below already or cannot get there; the answer is whether it is still above |
| MemTracking.MemTracker.CollectAndRetry | src/bboy/base/mem_tracker.cc:316-327 | a tracker that lacks the room collects once and tries once more |
| MemTracking.NothingToCollectIff | src/bboy/base/mem_tracker.cc:455-468 | before the callbacks unsigned numbers are compared: nothing is collected exactly if the goal is below zero, or the consumption is at least zero and below the goal |
| MemTracking.TrackerTree.CallGcFunction | src/bboy/base/mem_tracker.cc:471-472 | each call of a callback is kept in the history, with the consumption after it |
| MemTracking.MemTracker.Consume | src/bboy/base/mem_tracker.cc:272-294 | one posting, also for negative amounts; conservation is kept |
| MemTracking.MemTracker.Release | src/bboy/base/mem_tracker.cc:350-385 | the posting with the opposite sign; conservation is kept |
| MemTracking.MemTracker.SpareCapacity | src/bboy/base/mem_tracker.cc:445-452 | the least room at the limited trackers of the path |
| MemTracking.MinSpareIsBound | src/bboy/base/mem_tracker.cc:445-452 | an amount is within that minimum exactly if it fits at every one of them |
| MemTracking.SpareMeansFit | src/bboy/base/mem_tracker.cc:296-348 | the spare capacity of a tracker decides whether an amount fits along its whole path |
| MemTracking.MemTracker.LimitExceeded | src/bboy/base/mem_tracker.cc:396-401 | true exactly if the tracker has a limit and is above it after its callbacks, which are called exactly if it was above it before |
| MemTracking.MemTracker.IncrementBy | src/bboy/base/high_water_mark.h:48-50 | the counter moves by the amount and the peak follows |
| MemTracking.MemTracker.TryIncrementBy | src/bboy/base/high_water_mark.h:32-46 | moves exactly if the sum stays within the maximum |
| MemTracking.MemTracker.Init | src/bboy/base/mem_tracker.cc:533-543 | all_trackers_ is the tracker followed by its parent's list, limit_trackers_ exactly those with a limit |
| MemTracking.MemTracker.AddAlongPath | src/bboy/base/mem_tracker.cc:290-293 | exactly the tracker and its ancestors move, each once |
| MemTracking.MemTracker.AddGcFunction | src/bboy/base/mem_tracker.h:194-196 | a callback is added behind the others |
| MemTracking.TrackerTree.constructor | src/bboy/base/mem_tracker.cc:102-124 | the root alone is a valid tree |
| MemTracking.TrackerTree.CreateTracker | src/bboy/base/mem_tracker.cc:126-136 | a new leaf without consumption, under the root by default; every invariant of the tree is kept and no other tracker changes |
| MemTracking.TrackerTree.DestroyTracker | src/bboy/base/mem_tracker.cc:157-170 | also with unreleased bytes: its ancestors lose exactly what the leaf held, nobody's own bytes change, and conservation is kept |
| MemTracking.PostingsKeepBalance | src/bboy/base/mem_tracker.cc:272-385 | any list of postings keeps conservation: every tracker holds its own net bytes and what its live children hold |
| MemTracking.ChildrenCarry | src/bboy/base/mem_tracker.cc:533-543 | what a list of postings adds to a tracker is what it adds there directly and what it adds to the children |
| MemTracking.OnPathUnique | src/bboy/base/mem_tracker.cc:533-543 | of the siblings at one depth at most one lies on the path of a tracker |
| MemTracking.ScopedTrackedConsumption.constructor | src/bboy/base/mem_tracker.h:357-362 | one posting of the amount |
| MemTracking.ScopedTrackedConsumption.Reset | src/bboy/base/mem_tracker.h:364-368 | the posting is replaced by one of the new amount, whatever others were made in between |
| MemTracking.ScopedTrackedConsumption.Destroy | src/bboy/base/mem_tracker.h:370-372 | only the postings of others are left |
| TrackerRuns.RunBalanced | src/bboy/base/mem_tracker.cc:272-385 | in every interleaving, each consumption is the bytes settled at the tracker and below plus the shares of the operations in flight that have passed it |
| TrackerRuns.QuiescentBooks | src/bboy/base/mem_tracker.cc:272-385 | when no operation is in flight, it is the settled bytes alone |
| TrackerRuns.StepBalanced | src/bboy/base/mem_tracker.cc:296-385 | every atomic step of every thread keeps these books |
| TrackerRuns.LimitsNeverExceeded | src/bboy/base/high_water_mark.h:32-46 | if nobody consumes without asking, no limited tracker is ever above its limit, not even in the middle of a walk |
| TrackerRequests.SettledIsRequested | src/bboy/base/mem_tracker.cc:272-385 | in every run, for each tracker: the bytes settled at it and those being added for it are the bytes of the accepted Consume calls at it, less those of Release, plus those of TryConsume calls that were granted |
| TrackerRequests.QuiescentIsRequested | src/bboy/base/mem_tracker.cc:272-385 | when no operation is in flight, the consumption of a tracker is what was asked and granted at it and below |
| TrackerRequests.WorksOnItsRequest | src/bboy/base/mem_tracker.cc:272-385 | a thread in the middle of an operation works on its last request: the same tracker and the same amount |
| TrackerRequests.ConsumeAlone | src/bboy/base/mem_tracker.cc:272-294 | a Consume that nobody disturbs adds its bytes at the tracker and its ancestors and nowhere else |
| TrackerRequests.ReleaseAlone | src/bboy/base/mem_tracker.cc:350-385 | a Release takes them away there and nowhere else |
| TrackerRequests.TryConsumeAlone | src/bboy/base/mem_tracker.cc:296-348 | a TryConsume that nobody disturbs adds its bytes in the same way exactly if they fit at each of these trackers, and leaves no trace otherwise |
| TrackerRequests.OneCollection | src/bboy/base/mem_tracker.cc:316-327 | in every run an attempt collects at most once at each tracker: it has when it tries again there, and when it has given up there exactly if the limit is not below the amount |
| TrackerRequests.RefusedAtLimit | src/bboy/base/mem_tracker.cc:316-329 | in every run an attempt gives up only at a tracker with a limit that the bytes would exceed at that moment, and after its one collection if that could make room |
| TrackerRequests.CollectionGoal | src/bboy/base/mem_tracker.cc:471-481 | a collection ends in another try exactly if the bytes fit by then, and in the rollback exactly if they do not and no callback is left |
| TrackerCrowding.CrowdingIffNested | src/bboy/base/mem_tracker.cc:307-347 | for any tree and at least two threads: some run has an attempt refused for bytes of attempts that have failed already exactly if a tracker with a limit has a proper ancestor with a limit |
| TrackerCrowding.NobodyCrowdedOut | src/bboy/base/mem_tracker.cc:307-347 | without nested limits, in every run, an attempt is refused only for bytes that stay |
| TrackerCrowding.HoldersSucceed | src/bboy/base/mem_tracker.cc:307-347 | without nested limits, an attempt that holds bytes at a limit cannot be refused any more |
| TrackerCrowding.NestingCrowds | src/bboy/base/mem_tracker.cc:307-347 | for every nested pair of limits a run, with the thread that is crowded out |
| TrackerCrowding.AttemptsAreNotAtomic | src/bboy/base/mem_tracker.cc:307-347 | on one family, two overlapping attempts both fail although one of them succeeds in either sequential order |
| HighWaterMark.MaxIsHighWaterMark | src/bboy/base/high_water_mark.h:30-60 | when nobody is updating the maximum, it is the largest value the counter ever held, in every run |
| HighWaterMark.MaxIsAttainedAndMonotone | src/bboy/base/sync/atomic.h:278-288 | at any time the maximum is a value that was held, and it never decreases |
| HighWaterMark.MaxLagsBehind | src/bboy/base/high_water_mark.h:48-60 | in the middle of an operation the counter can be above the maximum |
| HighWaterMark.ChangesAsAsked | src/bboy/base/high_water_mark.h:30-55 | in every run the counter changes only where an operation takes effect, and as it was asked; TryIncrementBy takes effect only if the sum is within its limit at that moment and is refused exactly if it is not |
| Wide.Uint128.MulAssign | src/bboy/gbase/int128.h:287-308 | the product modulo 2^128, also of a number with itself in place |
| Wide.SixteenProducts | src/bboy/gbase/int128.h:290-306 | the product of four digits by four is the four columns the code adds up and a multiple of 2^128 |
| Wide.DroppedCarries | src/bboy/gbase/int128.h:300-303 | the carries lost in the two upper columns do not matter modulo 2^128 |
| Wide.ColumnsMakeProduct | src/bboy/gbase/int128.h:300-306 | what is stored is the product modulo 2^128 |
| Wide.Uint128.AddAssign | src/bboy/gbase/int128.h:270-277 | the sum modulo 2^128, with the carry, also in place |
| Wide.Uint128.SubAssign | src/bboy/gbase/int128.h:279-285 | the difference modulo 2^128, with the borrow, also in place |
| Wide.Uint128.FromInt | src/bboy/gbase/int128.h:114-118 | a negative int is extended to its value modulo 2^128 |
| Wide.Less | src/bboy/gbase/int128.h:127-136 | compares the numbers |
| Wide.LessOrEqual | src/bboy/gbase/int128.h:127-137 | compares the numbers |
| Wide.Negate | src/bboy/gbase/int128.h:143-151 | the negative modulo 2^128 |
| Wide.ValueInjective | src/bboy/gbase/int128.h:127-137 | equal halves and equal numbers are the same |
| Wide.ShiftLeftValue | src/bboy/gbase/int128.h:190-205 | multiplication by 2^n modulo 2^128, for every n |
| Wide.ShiftRightValue | src/bboy/gbase/int128.h:207-222 | division by 2^n, for every n |
| Wide.Uint128.ShiftLeftAssign | src/bboy/gbase/int128.h:224-239 | the in-place form agrees with the other |
| Wide.Uint128.ShiftRightAssign | src/bboy/gbase/int128.h:241-256 | what the in-place form does for every n, the lost half included |
| Wide.InPlaceRightShiftExact | src/bboy/gbase/int128.h:241-256 | the in-place right shift divides by 2^n exactly if n is below 64 or at least 128, or the quotient is zero anyway |
| ByteWords.LowPattern | src/bboy/gbase/bits.h:121-124 | the pattern l has a one in every byte, for every word size |
| ByteWords.HighPattern | src/bboy/gbase/bits.h:125 | the pattern h has the top bit of every byte |
| ByteWords.LessThanTestCorrect | src/bboy/gbase/bits.h:234-243 | true exactly if some byte is below c, for every word and every c |
| ByteWords.LowFlagFinds | src/bboy/gbase/bits.h:240-241 | Knuth's test for c up to 0x80: some byte is flagged exactly if some byte is below c, since nothing is borrowed before the lowest such byte |
| ByteWords.EitherFlagFinds | src/bboy/gbase/bits.h:242 | the test for larger c |
| ByteWords.EqualTestCorrect | src/bboy/gbase/bits.h:245-248 | true exactly if some byte is c |
| ByteWords.RangeTestCorrect | src/bboy/gbase/bits.h:250-263 | true exactly if all bytes are in range, under the condition of the next row |
| ByteWords.RangeTestCorrectIff | src/bboy/gbase/bits.h:250-263 | the test is right for all words exactly if the word has four bytes or more, or the range is narrow, or it is everything |
| ByteWords.WideRangeOnNarrowWord | src/bboy/gbase/bits.h:261-262 | what it answers otherwise: no, unless the range is 0..255 |
| SidewaysAddition.CountOnesIsRight | src/bboy/gbase/bits.h:20-24 | the number of one bits, for every word of 32 bits |
| SidewaysAddition.CountOnes64IsRight | src/bboy/gbase/bits.h:27-33 | and for every word of 64 bits |
| SidewaysAddition.PortableAgrees | src/bboy/gbase/bits.h:34-36 | both forms of CountOnes64 agree |
| SidewaysAddition.ProductIsSums | src/bboy/gbase/bits.h:31-32 | the multiplication holds the running sums of the bytes, up to whole words |
| HammingBits.TableIsRight | src/bboy/gbase/bits.cc:12-28 | every entry of the table is the number of bits of its index |
| HammingBits.Count | src/bboy/gbase/bits.cc:30-36 | the number of one bits of the bytes; none for a negative length |
| HammingBits.Difference | src/bboy/gbase/bits.cc:38-45 | the Hamming distance |
| HammingBits.CappedDifference | src/bboy/gbase/bits.cc:47-55 | exact up to the cap, above the cap exactly if the distance is, and by at most the eight bits of a byte |
| HammingBits.DistanceIsMetric | src/bboy/gbase/bits.cc:38-45 | zero exactly for equal sequences, symmetric, and the triangle inequality |
| BitPositions.Log2FloorPortable | src/bboy/gbase/bits.cc:57-72 | the position of the highest bit, and -1 for zero |
| BitPositions.Log2Ceiling | src/bboy/gbase/bits.cc:74-80 | the least power of two that is not below n, and -1 for zero |
| BitPositions.LowestBitIsAll | src/bboy/gbase/bits.cc:76 | n == (n &~ (n - 1)) holds exactly for zero and the powers of two |
| BitPositions.FindLSBSetNonZeroPortable | src/bboy/gbase/bits.cc:90-101 | the position of the lowest bit of a word that is not zero |
| Once.CalledOnceBeforeAnyReturn | src/bboy/gbase/once.cc:14-49 | for any number of callers and any schedule the function is called at most once, nobody returns before it has finished, and the sanity check never fails |
| Once.DoneIsFinal | src/bboy/gbase/once.cc:40-48 | once done, always done, and the function is never called again |
| Once.WinnerCanFinish | src/bboy/gbase/once.cc:33-48 | whenever the function is claimed and not done, its caller alone can finish in at most four steps |
| Once.EverybodyReturns | src/bboy/gbase/once.cc:27-38 | once done, every caller has returned after at most four more steps of its own, whatever the others do in between |
| Once.WakesWhomItSaw | src/bboy/gbase/once.cc:40-47 | whatever the others do in between, the caller that ran the function wakes the waiters exactly if the word it had loaded said that there were some |
| Once.StepKeepsInv | src/bboy/gbase/once.cc:14-49 | every step of every caller keeps the invariant: exactly one caller between claim and done |
| Once.RunKeepsInv | src/bboy/gbase/once.cc:14-49 | so it holds in every reachable state |
| Once.TableRows | src/bboy/gbase/once.cc:27-31 | which row of the transition table each word finds, and that none is found for a word someone waits on |
| StackDump.ChecksFailIff | src/bboy/base/debug_util.cc:211-266 | for callers that ask for given thread ids, some run fails a CHECK exactly if one of the ids is changed into a positive one by the conversion to pid_t |
| StackDump.ChecksNeverFail | src/bboy/base/debug_util.cc:211-266 | in every run that asks for no such id, with signals that arrive arbitrarily late, no CHECK of the target fails |
| StackDump.TrappedAborts | src/bboy/base/debug_util.cc:253-255 | asking for such an id can end the process from every reachable state in which a dump can start |
| StackDump.NextDumpGenuineIff | src/bboy/base/debug_util.cc:232-266 | while nobody is dumping and somebody could, the next dump is genuine in every continuation exactly if result_ready is clear |
| StackDump.ClearFlagIsSafe | src/bboy/base/debug_util.cc:122-150 | with the flag clear, the next dump returns no stack but one that its thread collected during it |
| StackDump.StaleDump | src/bboy/base/debug_util.cc:232-266 | with the flag set, the next dump of any thread can return the stack that was left behind |
| StackDump.TraceGenuineIff | src/bboy/base/debug_util.cc:122-150 | a returned stack is genuine exactly if a handler answered this dump; it did unless the flag was set at the start, and then a failure exit had left it |
| StackDump.TracesGenuineWithoutStaleExit | src/bboy/base/debug_util.cc:211-266 | without such an exit every returned stack is genuine |
| StackDump.StaleExitsAreCounted | src/bboy/base/debug_util.cc:232-238 | the history counts the failure exits taken while the flag is set |
| StackDump.StaleTrace | src/bboy/base/debug_util.cc:232-238 | an instance: the dump of one thread returns the stack of another |
| StackDump.FlagLeftSet | src/bboy/base/debug_util.cc:232-238 | the run up to the exit: nobody is dumping and the flag is set |
| StackDump.RunKeepsInv | src/bboy/base/debug_util.cc:97-150 | mutual exclusion of the lock, the published target and the origin of the shared stack, in every reachable state |
| StackDumpAnswers.AnswersDecided | src/bboy/base/debug_util.cc:211-266 | in every run the answer is decided: unavailable exactly if the handler is not installed, undeliverable exactly if it is and tgkill failed, a stack exactly if the signal went out and the flag was left set or a handler set it before the end, and otherwise no response, after 101 polls that found the flag clear |
| StackDumpAnswers.RespondersAreHeard | src/bboy/base/debug_util.cc:132-150 | a thread whose handler answers a delivered dump before its end has the stack of that very dump returned |
| StackDumpAnswers.EachDumpAnswersOnce | src/bboy/base/debug_util.cc:211-266 | a call gives one answer, for the thread it was asked about, at the step with which it returns, and no other step gives one |
| StackDumpAnswers.RunExplained | src/bboy/base/debug_util.cc:211-266 | where a dumper is, in terms of what has happened to its dump, in every reachable state |
| ObjectPools.ObjectPool.Construct | src/bboy/base/object_pool.h:58-62 | the node freed last, or a new one if none is free: never one that holds an object; the number of nodes stays the peak of live objects |
| ObjectPools.ObjectPool.Destroy | src/bboy/base/object_pool.h:73-84 | the object's destructor runs once and its node is the next to be used |
| ObjectPools.ObjectPool.GetObject | src/bboy/base/object_pool.h:105-121 | the node leaves the free list, or joins the list of all nodes |
| ObjectPools.ObjectPool.DeleteAll | src/bboy/base/object_pool.h:43-55 | one delete for every node and exactly one destructor call for every object that was constructed; links are read before the delete |
| ObjectPools.FreeAndLive | src/bboy/base/object_pool.h:95-103 | the flagged nodes are as many as the free list has, and all others hold an object |
| ObjectPools.FreeListIsAcyclic | src/bboy/base/object_pool.h:105-114 | following the free list visits each free node once and ends |
| FastStrings.FastString.Append | src/bboy/base/faststring.h:75-89 | the contents grow by the bytes, also if they come from the string itself and its buffer survives; amortized cost is kept |
| FastStrings.FastString.EnsureRoomForAppend | src/bboy/base/faststring.h:146-152 | the contents stay and there is room; a buffer is deleted exactly if it is the string's own, on the heap, and too small |
| FastStrings.FastString.PushBack | src/bboy/base/faststring.h:95-99 | the contents grow by one byte |
| FastStrings.FastString.Resize | src/bboy/base/faststring.h:48-55 | what fits of the contents stays |
| FastStrings.FastString.Reserve | src/bboy/base/faststring.h:70-73 | the contents stay; nothing happens if the capacity is there |
| FastStrings.FastString.Release | src/bboy/base/faststring.h:57-68 | the contents leave in a buffer the string no longer uses and has not deleted: its own if that is on the heap, a copy if not |
| FastStrings.FastString.AssignCopy | src/bboy/base/faststring.h:128-132 | the contents are replaced by the bytes, and none of them is moved before |
| FastStrings.FastString.Clear | src/bboy/base/faststring.h:43-46 | empty, in the same buffer |
| FastStrings.FastString.Destroy | src/bboy/base/faststring.h:36-41 | no buffer is deleted twice, and the inner one never |
| FastStrings.FastString.constructor | src/bboy/base/faststring.h:19-23 | empty, with the inner buffer |
| FastStrings.FastString.WithCapacity | src/bboy/base/faststring.h:25-34 | empty, with the capacity asked for if it exceeds the inner buffer |
| FastStrings.FastString.GrowArray | src/bboy/base/faststring.cc:17-33 | the contents move to a new buffer, and the old one is deleted unless it is the inner one |
| FastStrings.FastString.GrowByAtLeast | src/bboy/base/faststring.cc:9-15 | the new capacity is what is needed or half as much again as there is |
| FastStrings.AppendsAreAmortized | src/bboy/base/faststring.cc:9-33 | any sequence of appends to an empty string moves at most five times as many bytes as it appends |
| FastStrings.AppendStaysPaid | src/bboy/base/faststring.cc:9-15 | each append keeps copied <= 2 * len + 2 * (capacity - 32) and capacity <= max(32, 3/2 * len) |
| FastStrings.ResizesAreNot | src/bboy/base/faststring.h:70-73 | growing by resize, one byte at a time, moves a quadratic number of bytes |
| Randomness.Random.Next | src/bboy/base/random.h:49-68 | one step of the recurrence 16807 * seed modulo 2^31 - 1, and the seed stays within 1 .. 2^31 - 2 |
| Randomness.FoldReduces | src/bboy/base/random.h:60-67 | adding the upper and the lower part and subtracting once reduces the product; the sum is never the modulus itself |
| Randomness.Random.constructor | src/bboy/base/random.h:33-35 | the seed is valid, whatever it is made from |
| Randomness.Random.Reset | src/bboy/base/random.h:38-44 | the two bad seeds become 1 |
| Randomness.Random.Uniform | src/bboy/base/random.h:85 | below n, and one step of the generator |
| Randomness.Undo | src/bboy/base/random.h:49-68 | 1407677000 takes a step back, so no two seeds have the same successor |
| Randomness.PrimitiveRoot | src/bboy/base/random.h:53-56 | no power of 16807 below 2^31 - 2 is 1 |
| Randomness.FullCycle | src/bboy/base/random.h:53-56 | from every seed the generator reaches every number from 1 to 2^31 - 2 |
| Randomness.PeriodIsN | src/bboy/base/random.h:53-56 | and comes back for the first time after 2^31 - 2 steps |
| Randomness.IterateIsProduct | src/bboy/base/random.h:53-56 | k steps multiply the seed by the k-th power |
| Randomness.ReservoirSample | src/bboy/base/random.h:123-145 | which eligible positions the result holds, as a function of the draws, and how far the generator moves |
| Randomness.SampleGuarantee | src/bboy/base/random.h:113-145 | whatever is drawn: distinct eligible positions, none in avoid, as many as there are up to k, and all of them in order if they fit |
| Randomness.OrderKeptIff | src/bboy/base/random.h:119-145 | the order of the input is kept for all draws that n eligible elements and k slots make exactly if n is at most k or k is at most 1 |
| Randomness.SeedsKeepOrderIff | src/bboy/base/random.h:119-145 | the same for the draws of the generator: over all its seeds |
| Randomness.SampleOutOfOrder | src/bboy/base/random.h:119-145 | a seed with which two of three elements come out in reverse order |
| WritableFiles.PosixWritableFile.AppendVector | src/bboy/base/env_posix.cc:303-316 | a prefix of all slices is appended, for any number of slices, and OK means all of it; the status is that of the first write that failed for good or fell short, and OK exactly if none did |
| WritableFiles.PosixWritableFile.Append | src/bboy/base/env_posix.cc:297-301 | the same for one slice |
| WritableFiles.PosixWritableFile.DoWritev | src/bboy/base/env_posix.cc:407-444 | one chunk, interrupted or written short, with the same about the status |
| WritableFiles.PosixWritableFile.PreAllocate | src/bboy/base/env_posix.cc:318-336 | what was written stays; the file may end with zeros up to the preallocated size, and OK means that the space is there unless there is no fallocate, which is passed over; an error is that of a failed call |
| WritableFiles.PosixWritableFile.Sync | src/bboy/base/env_posix.cc:388-397 | OK means that everything written is on disk unless syncing is disabled, or nothing was pending after a failed sync; an error is that of a failed sync call |
| WritableFiles.PosixWritableFile.DoSync | src/bboy/base/env_posix.cc:152-169 | OK and nothing done if syncing is disabled, otherwise OK exactly if the system call worked, and its error if not |
| WritableFiles.PosixWritableFile.Close | src/bboy/base/env_posix.cc:338-373 | OK means that the file is as long as what was written, whatever was preallocated; the disk has the truncation exactly if something was pending or nothing was cut; the status is that of the first of the truncation, the sync and the close that failed; the descriptor is closed once, whatever failed |
| WritableFiles.VerdictAppends | src/bboy/base/env_posix.cc:338-373 | of two series of failures the status is that of the first if it has one that matters, and of the second otherwise |
| WritableFiles.PosixWritableFile.constructor | src/bboy/base/env_posix.cc:283-289 | nothing pending, and the size of the file |
| WritableFiles.SyncAgain | src/bboy/base/env_posix.cc:388-397 | after a sync that failed the next one answers OK and the data is still not on disk |
| WritableFiles.ChunkIsProgress | src/bboy/base/env_posix.cc:307-312 | a chunk of IOV_MAX slices extends the concatenation written so far |
| Paths.Split | src/bboy/gbase/strings/split_internal.h:97-115 | the iterator yields exactly the pieces between slashes that are not empty |
| Paths.SplitPath | src/bboy/base/path_util.cc:39-48 | the root, if the path is absolute, and these pieces |
| Paths.SplitUndoesJoin | src/bboy/base/path_util.cc:26-48 | splitting a joined path gives the segments of both parts, with or without a slash at the end of the first |
| Paths.SegmentsAreWellFormed | src/bboy/base/path_util.cc:39-48 | every segment is a name without a slash, but for a root in front, exactly if the path is absolute |
| Paths.SplitUndoesPathOf | src/bboy/base/env_util.cc:193-212 | the partial paths split into the segments they were built from |
| Paths.RoundTripIffNormal | src/bboy/base/path_util.cc:26-48 | joining the segments gives back the path exactly if it has no doubled slash and none at the end |
| Paths.CreateDirsRecursively | src/bboy/base/env_util.cc:193-212 | OK exactly if no call fails that could have worked and no partial path leads to something else than a directory; then every partial path is a directory, and one that was missing has been created or is another name of what was; otherwise what stands in the way is reported; only missing partial paths are created, shorter ones first, and the CHECKs of JoinPathSegments never fail |
| Paths.CreateMissing | src/bboy/base/env_util.cc:197-209 | one round: a directory is passed over, a missing path created, and anything else reported |

## Left out

- The builds with tcmalloc, the root's consumption function, `GcTcmalloc` and the count of released bytes: the function
  replaces the counter and breaks conservation at the root by design.
- Overflow of `int64_t` and `size_t` sums (counters, lengths, `len_ * 3`): they are taken as unbounded.
- Soft limits, percentages and everything else in floating point; `AnyLimitExceeded`, which repeats `LimitExceeded`.
- Logging, tracing, `LogUsage`, finding and listing trackers, symbolization, flags other than those named in the model.
- Hardware memory ordering: compare-and-set, increment and loads are single steps in one order.
- MemTracking.TrackerTree.RunCallback: a callback may release and consume anywhere, but does not create or destroy
  trackers or add callbacks.
- MemTracking.TrackerTree.AddChildTracker: comes after Init here and before it in the source, which one thread cannot tell.
- MemTracking.MemTracker.TryConsume: says nothing about the peaks, which an attempt that is rolled back may raise; the
  counter's own methods and HighWaterMark do.
- MemTracking.MemTracker.ExpandLimit: always says no, as in the source, so what follows a success is never reached.
- TrackerRuns.RunBalanced: callbacks are requests of other threads, so the exclusion of two collections at one tracker
  is not used; the end of a tracker is a release of its bytes at its parent, and trackers stay in the list.
- TrackerCrowding.NestingCrowds: its run starts with a release of bytes that were not consumed, which the source allows.
- Once.WinnerCanFinish: says that the winner can finish, not that waiters are woken; a waiter may come between the load
  of the old word and the store, so no wake-up is claimed. The futex itself is not modelled.
- StackDump.ChecksNeverFail: a handler that interrupts the dumping thread while it holds the lock, and would wait for
  itself, is a step like any other; the signal's frames and the unwinder are a value with the thread and the dump.
- Randomness.ReservoirSample: requires fewer than 2^31 elements, since the source counts them in an `int`.
- Randomness.SeedsKeepOrderIff: for fewer than 2^31 - 1 eligible elements.
- Randomness.Random.Uniform: nothing about how uniform it is; `Next64`, `Skewed`, `Normal` and `OneIn` only combine steps.
- FastStrings.FastString.Append: requires that the source of the bytes survives, since reading it after it was deleted
  has no meaning; EnsureRoomForAppend says when that is. The overload of `assign_copy` for `std::string` uses the wrong
  length and is not modelled.
- ObjectPools.ObjectPool.Construct: the value constructed is not part of the model, only when it lives.
- WritableFiles.PosixWritableFile.PreAllocate: a failed `fallocate` is taken to leave the file as it was; `EIO` returns an
  error instead of ending the process; `Flush` moves no metadata and is left out.
- WritableFiles.PosixWritableFile.Sync: a successful system call is taken to make everything durable, also after an
  earlier failure.
- Paths.CreateDirsRecursively: the file system is the set of paths that lead to a directory; other processes that change
  it in between are not modelled. Text is compared character by character.
- BitPositions.Log2Ceiling: the 64-bit forms, which repeat the same two steps, and the versions in assembly.
- Templates and wrappers (bind, callbacks, scoped pointers, maps), `Status`, `Slice`, times and endian conversions, the
  rest of the environment and the rpc declarations: fixed layouts, thin wrappers or no bodies.

# Verification of the server library's cores

A Dafny model of the parts of the library where state, arithmetic and concurrency meet, with proofs
of what those parts promise. `dafny verify dfyconfig.toml` checks everything.

## What is modelled

**ByteArray** (`Bytes`, `FlatStream`, `BlockChain`, `ByteArray`, `ByteArrayRuns`). A growable stream on a
linked list of fixed blocks, with a cached cursor. `ByteArrays.ByteArray` is a class over real nodes and
arrays, in the source's own shape: root pointer, cursor, position, size, capacity. `FlatStream` says what
it is: one flat store with a size and a position. Every method is proved to keep the invariant (the
cursor is the block of `position / baseSize`, null exactly at the capacity; the capacity is blocks times
block size) and to act as the flat operation. Any run of calls whose seeks stay inside the data
is then a run on an ordinary file-like byte string. The scatter/gather views and the two socket calls that use
them are proved against the same model.

**Codecs on the stream** (`Codec`, `Records`, `WireBytes`, `RecordStreams`). Fixed-width integers in either byte order,
base 128 varints, zig-zag, length-prefixed strings; lists of typed records written and read back through
the ByteArray object. `WireBytes` says which byte stands where.

**Scheduler, IO manager and fibers** (`FdEvents`, `FdSlots`, `Registration`, `Scheduling`, `IoManager`, `FiberProtocol`,
`FiberSafety`, `FiberAccounting`, `Submissions`, `FiberPaths`, `Stopping`, `FiberWaits`, `FiberRuns`, `WaitingIo`). `FdEvents` is the
per-descriptor event bookkeeping as transitions on a state with an abstract epoll interest map;
`IoManagers.IoManager` is the class with those fields, each locked region one method, proved to perform exactly those
transitions. `FdSlots` tells from an operation alone what becomes of each slot: which go off, with what work, and which bits
and contexts are left. `Registration` runs many `addEvent` calls at once, whose size test, resize and registration are separate
steps. `FiberProtocol` composes the manager with workers, the task list, fibers, timers and a clock into one step
machine; an invariant kept by every step gives mutual exclusion on fibers, and `FiberAccounting` follows every
submitted task; `Submissions` tells from each step alone which tasks it submits and completes, and that nothing
submitted is lost. `Stopping` is about the three readings of `stopping()`, made one after the other: exactly when a yes is
final, and exactly when every yes is right, whatever comes between the readings; `FiberPaths` builds the runs for it.
`FiberWaits` says which waiting fibers can be run again, `FiberRuns` holds concrete runs from a started manager, and
`WaitingIo` is the race inside one hooked I/O call between readiness, its timers and other users of its slot.

**HTTP wire codecs** (`HttpStream`, `Chunked`, `ChunkSizes`, `Multipart`, `Base64`, `Base64Symbols`, `UrlQuery`, `UrlBytes`,
`QueryText`, `QueryLines`, `QueryKeys`, `ByteRanges`, `PartReader`, `BufferedRead`) and **log patterns** (`LogPattern`): each
parser or printer as the loop it is, proved against a definition, and each pair as a round trip. `ChunkSizes`, `Base64Symbols`,
`UrlBytes`, `QueryLines` and `PartReader` say on literal bytes what the definitions mean: any spelling of a chunk size, every
symbol of an encoded text, every escape, every field of a query text, and a reader of its own for multipart answers.

## Assumptions

- Each lock-protected region is one atomic step, and so is each unlocked action of a timer callback of `do_io`
  (get hold of the mark, look at it, set it, cancel). Regions that the source takes one after the other are separate
  steps: the three of `addEvent` (in `Registration`), taking expired timers and queueing their callbacks, and the
  three readings of `stopping()` (in `Stopping`).
- Outside `Registration` the context vector never shrinks; then the size tests of `delEvent`, `cancelEvent` and
  `cancelAll` stay true once they are, and each of those calls is one step. Where a resize does cut contexts off,
  a call that still holds one of them is not followed.
- The clock may be set to any millisecond at any time; timers keep their due time as a word. A timer is set for any
  time, and the clock reading by which expired timers are taken may be any earlier or later one. In `WaitingIo` a timer
  may expire whenever it is pending.
- A thread that is no worker may submit callbacks, set and cancel timers that run callbacks, and call the IO manager;
  it registers callbacks only, and has a scheduler bound, as the thread that constructed the manager has.
- A report is delivered to `idle` under the descriptor's lock. Where the source does not mask it by the
  registered events, the model does not either: `StaleReport` says exactly which reports fault, and runs
  are taken over the others.
- In `WaitingIo` other parties may do anything to the manager but register the call's own fiber.
- A suspended fiber arranges at most one wake-up for itself before switching out, and does not end with
  one outstanding. `FiberRuns.SecondWakeUpRunsTwice` shows that this is needed.
- Work enters as callbacks or as fibers woken by the protocol, never as a freshly made `Fiber(cb)`, which
  starts in RUNING (src/Fiber.cc:48-49) and is skipped by the task scan.
- Fresh blocks hold whatever was in memory: the model takes those bytes as an arbitrary parameter (`junk`)
  and proves that they never show.
- `size_t` arithmetic does not wrap, except in the test of the positioned read; `ceil(1.0 * size / base)` is the exact
  ceiling. The 32- and 64-bit wrap-around of zig-zag and varints, the truncated length prefixes, `strtoul` saturation and the 32-bit
  accumulator of Base64 are modelled.
- Streams may return fewer bytes than asked for, at least one unless at the end, or fail.

## Where the code and its promise differ

Each is proved as a condition, both ways, or shown on an input.

- The positioned `read` starts from the cursor's block: it returns the bytes asked for exactly when they
  lie in the block of the current position (`FlatStream.PositionedReadExact`); `toString` uses it so.
- Its size test wraps for positions beyond the data (`FlatStream.PositionedTestExact`), and its walk can leave the
  chain (`FlatStream.PositionedReadsStay`). The positioned view builder cuts its length to what follows the stream
  position, not the position asked for (`FlatStream.PositionedViewsExact`).
- A string longer than its prefix can say does not come back (`Records.RecordRoundTrip`, least input
  `Records.LongTextIsLost`); an empty string that ends flush with the capacity is read through a null block pointer
  (`RecordStreams.NextUnsafeIff`, least input `RecordStreams.LeastFlush`).
- Two growing `addEvent` calls race: the second resize can cut off what the first registered, exactly if it finds the
  vector longer than it asks for (`Registration.ResizeHarmlessIff`, `TwoCallsRace`, `LostStayCounted`).
- Registering a registered event, which is only logged, is counted twice (`FdEvents.CounterExact`) and loses the fiber
  that was registered; deleting its registration loses it too (`FiberWaits.WaiterSurvivesIff`, `WaitingIo.SpoiledIff`).
  A report collected before an event was removed calls through a null scheduler (`FdEvents.StaleReport`,
  `StaleReportFaults`). A triggered callback is not cleared and shadows a fiber that registers later, which is then
  never run again (`FdEvents.TriggerRunsWhatWasAsked`, `FiberWaits.WaiterIsQueuedIff`, `WaitingIo.WokenIff`).
- `stopping()` may say yes too early: between taking expired timers and queueing their callbacks
  (`FiberRuns.StoppingIsTakenBack`); with a timer that was due one millisecond ago, whose remaining time reads as no
  timer (`FiberRuns.JustExpiredSaysYes`); and with a timer set between the readings (`FiberRuns.TornReading`).
  `Stopping.FinalIff` and `Stopping.EveryYesRightIff` say exactly when it does not.
- The branches of `run` that queue a READY fiber again are never taken: nothing makes a fiber READY
  (`FiberSafety.NeverReady`).
- A timer of `do_io` whose callback has marked and cancelled before the registration spends the timeout
  (`WaitingIo.TimeoutWorksIff`, `TimeoutCanBeLost`). A callback that holds the mark unset, or has found it so, when the
  call returns cancels whoever registers next, even if the call succeeded (`LateTimersQuietIff`,
  `LateLookHitsAnother`, `LateCancelHitsAnother`). A callback left over from an earlier attempt ends a later one
  (`StaleTimerEndsRetry`, `StaleTimerIsReachable`).
- A chunked body comes back exactly if the provider says it is done and writes nothing after that
  (`Chunked.RoundTrip`); an empty write at the end of a call stops the writer without the last chunk
  (`Chunked.EmptyWriteEnds`).
- A suffix range longer than the content is refused, where RFC 9110, section 14.1.2, would serve all of
  it (`ByteRanges.NormalMeaning`, `LongSuffixIsRefused`).
- Parameter names are printed unescaped and equal pairs are merged: parameters come back exactly if all names are
  plain and the pairs sorted and distinct (`QueryKeys.PrintParseIff`).
- Log text behind the last directive is dropped (`LogPattern.ScanPrinted`).

## Model

| member | source | states |
|---|---|---|
| ByteArrays.ByteArray.constructor | src/bytearray.cc:25-34 | a new object is valid: one block, cursor on it, nothing written |
| ByteArrays.ByteArray.AddCapacity | src/bytearray.cc:493-522 | appends fresh blocks, exactly as many as the flat model needs, keeps the data and leaves the cursor on the block of the position |
| FlatStream.GrowLeast | src/bytearray.cc:493-509 | growth makes room for the request, one block fewer would not, and none is added when there is room |
| ByteArrays.ByteArray.Write | src/bytearray.cc:323-361 | the chained write keeps the invariant and acts as one write on the flat store, across any block boundaries |
| FlatStream.WriteData | src/bytearray.cc:323-361 | what a write shows: overwrite or extend at the position; uninitialised bytes never show |
| FlatStream.WriteSplit | src/bytearray.cc:323-361 | writing in two pieces shows what one write shows |
| ByteArrays.ByteArray.Read | src/bytearray.cc:363-392 | refused exactly when more is asked than unread; otherwise the exact slice, position moved, nothing else changed |
| FlatStream.ReadBack | src/bytearray.cc:323-392 | whatever was there before, going back after a write and reading its length returns the bytes written |
| ByteArrays.ByteArray.SetPosition | src/bytearray.cc:429-445 | refused exactly beyond the capacity; otherwise position and size as the flat model, and the walk from the root ends on the block of the position |
| ByteArrays.ByteArray.Clear | src/bytearray.cc:310-321 | back to one block, position and size zero |
| ByteArrays.ByteArray.ReadAt | src/bytearray.cc:394-427 | refused exactly by the wrapping size test; otherwise, if the walk stays in the chain, the bytes from the offset of its argument inside the cursor's block |
| FlatStream.PositionedReadExact | src/bytearray.cc:400-406 | which are the bytes asked for, whatever the store holds, if and only if the argument lies in the block of the current position |
| FlatStream.PositionedTestExact | src/bytearray.cc:396-398 | the size test refuses exactly what lies outside the data if and only if the position lies within it, or the length is beyond any memory |
| FlatStream.PositionedReadsStay | src/bytearray.cc:400-426 | all positioned reads within the data stay in the chain if and only if the data would fit from the cursor's block on |
| ByteArrays.ByteArray.Unread | src/bytearray.cc:524-532 | `toString` returns exactly the unread bytes |
| ByteArrayRuns.Call | src/bytearray.cc:310-445 | one call on the object is one step of the flat model, with the same output |
| ByteArrayRuns.Drive | src/bytearray.cc:310-445 | any run of write, read, setPosition and clear on the block chain is a run of the flat model |
| ByteArrayRuns.RunIsFileRun | src/bytearray.cc:310-445 | any such run whose seeks stay inside the data is a run on a plain byte string with a position: blocks, capacity and uninitialised bytes never show |
| ByteArrays.ByteArray.GetReadBuffers | src/bytearray.cc:553-583 | the views, built from the cursor, cover the requested unread stretch, cut to what is unread |
| ByteArrays.ByteArray.GetReadBuffersAt | src/bytearray.cc:585-620 | the views built by walking from the root cover the stretch from the given position, of the length cut to what follows the stream position |
| FlatStream.PositionedViewsExact | src/bytearray.cc:587-590 | that length is the one asked for, cut to what follows the given position, if and only if the two positions are equal or both allow the whole length; else views fall short or run past the data |
| SocketIo.BothReadBuffers | src/bytearray.cc:553-620 | cursor-based and root-walking views are the same list, lie in different blocks and spell the unread bytes |
| ByteArrays.ByteArray.ViewsSpell | src/bytearray.cc:561-582 | the views of a stretch concatenate to exactly that stretch, each from its own block |
| ByteArrays.ByteArray.GetWriteBuffers | src/bytearray.cc:622-651 | grows like a write of that length, and the views cover the room from the position on |
| SocketIo.Receive | src/socket_stream.cc:29-40 | receiving r bytes into the views and moving the position has the effect of writing those r bytes, however few; failures change no data |
| SocketIo.Deposit | src/socket_stream.cc:34-38 | filling the first bytes of the write views and moving over them equals a write of those bytes |
| SocketIo.Send | src/socket_stream.cc:49-60 | exactly the next unread bytes go out, in order, and the position moves over what the kernel took |
| Codec.ZigzagEncodeDecode | src/bytearray.cc:106-125 | decoding inverts zig-zag encoding for every signed 32- or 64-bit value, wrap-around included |
| Codec.ZigzagDecodeEncode | src/bytearray.cc:106-125 | encoding inverts decoding for every unsigned value: the two are bijections |
| Codec.ZigzagValue | src/bytearray.cc:106-120 | the machine expression is the zig-zag of the Protocol Buffers encoding: even for non-negative, odd for negative values |
| Codec.EncodeVarint | src/bytearray.cc:134-160 | the loop yields the base 128 varint and its index never leaves the 5- or 10-byte array |
| Codec.VarintRoundTrip | src/bytearray.cc:134-160 | reading a written varint, whatever follows, gives the value and takes exactly its bytes, at most 5 or 10 |
| RecordStreams.TakeVarint | src/bytearray.cc:234-262 | the reading loop on the object computes the varint at the position and moves past it; running out is reported at the end of the data |
| Codec.HostOrderInvisible | include/ntmlgb.h:24-54 | the bytes of a fixed-width integer depend on the stream's byte order alone, not on the host's |
| Codec.FixedRoundTrip | src/bytearray.cc:60-103 | fixed-width values come back even if writer and reader run on hosts of different order |
| WireBytes.FixedAt | src/bytearray.cc:60-103 | byte i of a fixed-width word on the wire is its i-th byte from below in a little-endian stream and from above in a big-endian one, on any host |
| WireBytes.VarintAt | src/bytearray.cc:134-160 | byte i of a varint holds bits 7i to 7i + 6 of the value, with the high bit set on all but the last byte |
| WireBytes.VarintLength | src/bytearray.cc:134-160 | a varint takes at most n bytes if and only if the value has at most 7n bits |
| WireBytes.NumberBytes | src/bytearray.cc:60-172 | which word a number travels as: itself, its two's complement, or, as a signed varint, 0, -1, 1, -2, ... in turn |
| WireBytes.TextBytes | src/bytearray.cc:174-192 | a string travels behind the low bytes of its length, in the order of the stream |
| Records.NumRoundTrip | src/bytearray.cc:60-262 | every number kind comes back from the front of any text, taking exactly its bytes |
| Records.RecordRoundTrip | src/bytearray.cc:60-308 | a record comes back, taking exactly its bytes, if and only if its length fits its prefix |
| Records.LongTextIsLost | src/bytearray.cc:174-177 | a string of 65536 bytes with a 16-bit prefix comes back empty |
| RecordStreams.WriteRecord | src/bytearray.cc:60-196 | writing a record on the object overwrites or extends the data with its encoding |
| RecordStreams.TakeRecord | src/bytearray.cc:198-308 | reading a record on the object decodes what stands at the position and moves past it, or reports that the data run out, standing behind the length prefix or the unfinished varint it took |
| RecordStreams.NextUnsafeIff | src/bytearray.cc:278-308 | reading the next of a list of written records goes through a null block pointer if and only if it is the last, an empty string, and the list ends flush with the capacity |
| RecordStreams.RoundTrip | src/bytearray.cc:60-308 | a list of records written, position reset, read by the same types gives the list and consumes exactly the bytes written; in the flush case, named exactly, all but the last, whose read is unsafe |
| RecordStreams.LeastFlush | src/bytearray.cc:278-284 | one empty string with a 16-bit prefix in a block of two bytes is such a case |
| FdEvents.CtlLegal | src/IoManager.cc:184-192 | in a manager in order ADD is issued only for absent descriptors, MOD and DEL only for present ones |
| FdEvents.AddKeeps | src/IoManager.cc:174-216 | the locked part of a registration, successful or failed, keeps the interest set equal to the registered bits; the counter rises on success, the set bits unless it was registered already |
| FdEvents.DelKeeps | src/IoManager.cc:218-250 | so does a deletion, which lowers counter and set bits alike, by one exactly if it succeeds |
| FdEvents.FireKeeps | src/IoManager.cc:252-322 | firing registered slots keeps it too; one piece of work comes out for each, and counter and set bits fall alike |
| FdEvents.ApplyFires | src/IoManager.cc:252-442 | cancelling one event, cancelling all and delivering a report are one transition: fire a set of registered slots |
| FdSlots.WorkMeaning | src/IoManager.cc:93-442 | the work an operation hands over: for the slot cancelled, for all slots of the descriptor, or for the registered slots the report names, all of them on an error or a hang-up; the callback if there is one and else the fiber, reading first |
| FdSlots.BitsMeaning | src/IoManager.cc:174-442 | the slots registered afterwards are those that were and neither go off nor are deleted, and the one added |
| FdSlots.ContextMeaning | src/IoManager.cc:93-250 | what a context holds afterwards: a trigger unbinds the scheduler and clears nothing else, a deletion forgets all, a registration replaces the field it brings |
| FdSlots.CounterMeaning | src/IoManager.cc:174-442 | the pending counter rises by a registration and falls by a deletion and by each slot that goes off |
| FdSlots.HangupWakesAll | src/IoManager.cc:403-442 | if the kernel call succeeds, a report of an error or a hang-up leaves no bit of the descriptor and hands over the work of every registered slot (least case `HangupWakesReader`) |
| FdSlots.DeletionForgets | src/IoManager.cc:218-250 | a fiber that registers after a deletion is what the next trigger hands over, whatever callback the slot held |
| FdEvents.RunBalance | src/IoManager.cc:93-322 | over every run, registrations of a slot are triggers plus deletions plus replaced ones plus the bit that is set |
| FdEvents.WokenAtMostOncePerRegistration | src/hook.cc:107-123 | a timeout's cancellation and a readiness report together trigger a slot at most once per registration |
| FdEvents.CounterExact | src/IoManager.cc:176-202 | the pending counter equals the number of set bits after a run if and only if no event was registered on top of itself |
| FdEvents.ReaddOvercounts | src/IoManager.cc:176-202 | the concrete run in which it does not |
| FdEvents.StaleReport | src/IoManager.cc:418-442 | delivery calls through a null scheduler if and only if it matches something registered and also names something that is not |
| FdSlots.FaultMeaning | src/IoManager.cc:403-442 | told from the report: the kernel call succeeds, some registered slot goes off, and the report names an event that is not registered |
| FdEvents.FreshReportSafe | src/IoManager.cc:401-442 | a report handled in the state the kernel collected it in never does |
| FdEvents.StaleReportFaults | src/IoManager.cc:401-442 | register both events, collect a report of both, cancel or delete one, deliver: it does |
| FdEvents.TriggerRunsWhatWasAsked | src/IoManager.cc:93-104 | what a registration will run is what it asked for if and only if it brings a callback or the slot holds no old one |
| FdEvents.StaleCallbackWins | src/IoManager.cc:93-104 | the concrete run in which the old callback runs instead of the fiber |
| Registration.RunKeeps | src/IoManager.cc:147-216 | with any number of `addEvent` calls between each other's regions: if every resize finds the vector no longer than it asks for, the interest set equals the registered bits throughout, no context in use is cut off, and every registration's kernel call is legal |
| Registration.ResizeHarmlessIff | src/IoManager.cc:158-172 | a pending resize leaves the manager in order whatever registers, fires or is removed before it if and only if the vector is no longer than it asks for |
| Registration.TwoCallsRace | src/IoManager.cc:158-192 | the concrete run of two calls in which it is not: a watched descriptor without a context, and then an ADD for a present descriptor |
| Registration.LostStayCounted | src/IoManager.cc:147-155 | registrations a resize cuts off stay in the pending counter, exactly as many |
| IoManagers.FdContext.TriggerEvent | src/IoManager.cc:93-104 | clears the bit, submits callback or fiber and unbinds the scheduler, on the object, as the transition says |
| IoManagers.IoManager.Lengthen | src/IoManager.cc:168-172 | the write-locked part on the objects: the vector becomes one and a half times the descriptor long, longer or shorter, contexts kept are the same objects, new ones blank |
| IoManagers.IoManager.Install | src/IoManager.cc:174-216 | the part under the descriptor's lock performs the registration transition, error path included |
| IoManagers.IoManager.AddEvent | src/IoManager.cc:158-216 | a call no other call comes between: size test, resize if the vector is too short, and registration, on the objects |
| IoManagers.IoManager.DelEvent | src/IoManager.cc:218-250 | the method performs the deletion transition |
| IoManagers.IoManager.CancelEvent | src/IoManager.cc:252-282 | the method performs the cancellation transition and submits the work it frees |
| IoManagers.IoManager.CancelAll | src/IoManager.cc:284-322 | the method fires every registered slot of the descriptor, reading before writing |
| IoManagers.IoManager.HandleReport | src/IoManager.cc:401-442 | one turn of the event loop performs the delivery transition, which `FdSlots` states slot by slot: errors and hang-ups wake every registered waiter |
| Scheduling.Scheduler.ScheduleNoLock | include/scheduler.h:61-68 | appends the task and says whether the list was empty before |
| Scheduling.Scheduler.ScheduleRange | include/scheduler.h:37-50 | appends all tasks in order under one lock |
| Scheduling.Scheduler.TakeTask | src/Scheduler.cc:88-113 | takes the first task that is for any thread or for this one and is not a running fiber, counts it active, and keeps the others in order |
| FiberSafety.TakeKeeps | src/Scheduler.cc:88-113 | taking a task keeps the protocol invariant: the fiber taken is saved and nobody's |
| FiberSafety.ResumeKeeps | src/Fiber.cc:87-102 | switching to a fiber keeps it |
| FiberSafety.SwapOutKeeps | src/Fiber.cc:103-108 | so does switching out, even if the fiber's event fired or its task was queued before the context was saved |
| FiberSafety.SettleKeeps | src/Scheduler.cc:117-144 | so does the state update after the switch back, which comes after the count went down |
| FiberSafety.FireKeeps | src/IoManager.cc:252-442 | so does triggering any set of slots at any time: each wake-up moves from its slot to the list, none is doubled |
| FiberSafety.StepKeeps | src/Scheduler.cc:84-163 | every step of workers, fibers, IO manager, timers and submitters keeps the invariant |
| FiberSafety.NoFiberRunsTwice | src/Scheduler.cc:88-144 | in every run under the one-wake-up discipline no fiber is in two workers' hands, and one about to be resumed is saved and free |
| FiberSafety.NeverReady | src/Scheduler.cc:117-136 | in no run is a fiber ever READY, so the branches that queue such a fiber again are dead |
| FiberRuns.SecondWakeUpRunsTwice | src/Scheduler.cc:88-144 | from a started manager, a fiber that queues itself a second time against the discipline is taken by two workers |
| FiberWaits.LostForever | src/IoManager.cc:93-104 | a fiber nobody has and no place wakes is in nobody's hands and on no list in any run |
| FiberWaits.WaiterIsQueuedIff | src/IoManager.cc:93-216 | a fiber that registers and switches out can ever be queued again if and only if its slot held no callback when it registered |
| FiberWaits.WaiterSurvivesIff | src/IoManager.cc:174-250 | after any call of the manager a waiting fiber can still be queued if and only if the call did not register on top of its registration or delete it |
| FiberAccounting.StepAccount | src/Scheduler.cc:103-163 | every step, counting what `Submissions.SubmitMeaning` says it submits, keeps that each submitted task is queued, held by one worker or finished, and the active counter counts the holders |
| Submissions.SubmitMeaning | include/scheduler.h:25-68 | unless it takes a task, a step leaves the list as it was followed by exactly the tasks it submits, told from the step alone: a callback with its thread, the fiber scheduling itself or woken, the batch taken off the timers, or what goes off in the IO manager |
| Submissions.TakeMeaning | src/Scheduler.cc:88-113 | a worker takes one task, for any thread or its own and no running fiber; those before it are for another thread or running fibers |
| Submissions.NothingLost | src/Scheduler.cc:51-172 | from a started manager, in every run, whatever the steps submitted is on the list, with one worker, or completed by a step, as often as it was submitted |
| Submissions.TimerMeaning | src/timer.cc:129-172 | what a step does to a set timer: nothing, unless it cancels it or takes it when due; a recurring one is set again, its interval after the clock reading |
| Submissions.NewTimerMeaning | src/timer.cc:93-99 | a timer is set by exactly the steps that set it, as they set it |
| Submissions.BatchMeaning | src/timer.cc:129-172 | taking timers leaves the worker with the work of exactly those that are due, in their order |
| Submissions.CodeMay | include/scheduler.h:25-50 | code on a fiber can always submit, set and cancel timers, call the manager and switch out; no step waits for another |
| Stopping.YesMeansDone | src/IoManager.cc:343-347 | when the three readings say yes, at the third all submitted work is done and no worker is in a fiber, and at the second no event was registered |
| Stopping.ReadingMeaning | src/timer.cc:114-127 | no timer is read exactly if none is set or the one due first was due one millisecond before the clock, wrapped around or not |
| Stopping.StoppingIsFinal | src/IoManager.cc:385-391 | a step takes back that nothing is left if and only if it brings work from outside (a task, a timer, a registration) or queues callbacks an idle worker took off the timers |
| Stopping.FinalIff | src/IoManager.cc:343-391 | a yes read in one state is final, without work from outside, if and only if no worker holds such callbacks and the first timer was not due exactly one millisecond ago |
| Stopping.EveryYesRightIff | src/IoManager.cc:343-391 | readings that begin with nothing queued, no event and no timer read give only right and final answers, whatever happens inside between them, if and only if no timer was due a millisecond ago, no worker will run code and none holds collected callbacks |
| Stopping.EveryRunAccounts | src/Scheduler.cc:51-172 | from a started manager, in every run each task is queued, held or completed as often as the steps submitted it; after a yes the steps completed exactly what they submitted, and the two equivalences hold |
| FiberPaths.Drain | src/Scheduler.cc:84-163 | whatever the workers are at, they can come to rest with nothing queued, timers untouched and no work from outside |
| FiberRuns.StoppingIsTakenBack | src/IoManager.cc:364-391 | the concrete run from a started manager in which collected callbacks are queued after a yes |
| FiberRuns.JustExpiredSaysYes | src/timer.cc:114-127 | the concrete run in which a timer due one millisecond ago reads as none and its callback is queued after a yes |
| FiberRuns.TornReading | src/IoManager.cc:343-347 | a run between whose states the separate readings say yes though neither state would |
| WaitingIo.WakesOnce | src/hook.cc:94-152 | in every run of one hooked call: queued at most once per registration, never both queued and registered; with its registration gone, forgotten if and only if its slot held a callback or another party registered on top or deleted it; and a returned call leaves no wake-up, timer or slot that would resume its fiber |
| WaitingIo.ResultMeaning | src/hook.cc:86-152 | over every run a call returns a value only if the system call answered it, the registration's failure only if that failed, and a timeout only if a timer callback set the mark |
| WaitingIo.WokenIff | src/hook.cc:123-136 | a registration that is kept keeps its waiter from being forgotten, whatever else happens, if and only if the slot held no callback |
| WaitingIo.SpoiledIff | src/IoManager.cc:174-250 | an operation of another party makes a registered waiter forgotten if and only if it registers on top or deletes the registration |
| WaitingIo.ForgottenStays | src/hook.cc:123-136 | a forgotten waiter stays set aside in every run |
| WaitingIo.TimeoutWorksIff | src/hook.cc:107-123 | timers alone can wake a registered waiter if and only if its slot was clean and the mark is not set or a callback is between finding it unset and cancelling |
| WaitingIo.TimeoutCanBeLost | src/hook.cc:107-135 | a run from a clean start to a waiter with a timeout that no timer will wake |
| WaitingIo.LateTimersQuietIff | src/hook.cc:107-123 | after the call returned its timer callbacks leave the manager alone if and only if none has found the mark unset, or holds it unset, and has still to cancel, or nobody is registered on the slot |
| WaitingIo.LateLookHitsAnother | src/hook.cc:107-150 | a run in which a call that read its data leaves a callback holding the mark, which then cancels another fiber's registration |
| WaitingIo.LateCancelHitsAnother | src/hook.cc:108-148 | a run in which the cancellation of a returned call removes another fiber's registration |
| WaitingIo.StaleTimerEndsRetry | src/hook.cc:107-148 | a retried call can time out without any further expiry if and only if a callback of an earlier attempt has still to ask for the mark, to look at it, or found it unset |
| WaitingIo.StaleTimerIsReachable | src/hook.cc:107-148 | a run from a clean start to such a retry |
| HttpStream.LineReader.GetLine | include/httplib.h:3066-3117 | the fixed and the growable buffer act as one string: the line read is the stream's next line, under any short reads, and nothing beyond it is taken |
| HttpStream.LineMeaning | include/httplib.h:3074-3101 | a line ends right after the first CRLF, or with the input |
| Chunked.FromIToHex | include/httplib.h:2741-2749 | the loop yields the hexadecimal digits of the number |
| Chunked.WriteContentChunked | include/httplib.h:4714-4811 | whatever the provider writes in whatever calls, up to the first call whose last act was `done` or an empty write: a chunk for each non-empty write and the last chunk for each `done` |
| Chunked.ReadContentWithLength | include/httplib.h:4372-4392 | exactly the next bytes, in order, under any short reads |
| Chunked.ReadContentChunked | include/httplib.h:4421-4485 | accepts, on a reliable stream, exactly the texts the grammar decodes, and returns the decoded body |
| ChunkSizes.NumberRead | include/httplib.h:4435-4435 | the size read from blanks, a sign, a prefix and any hexadecimal digits of either case is the sum of digit times 16 to the place, saturating; digits end at the first other byte |
| ChunkSizes.NoNumber | include/httplib.h:4435-4437 | without a digit there is no size |
| ChunkSizes.AnySpelling | include/httplib.h:4421-4485 | a body whose sizes are spelled in any way (either case, leading zeros), with chunk extensions and trailer lines, decodes to the data of its chunks |
| ChunkSizes.BadEnding | include/httplib.h:4442-4448 | a chunk that is too short or not followed by CRLF does not decode |
| ChunkSizes.BadSize | include/httplib.h:4435-4438 | nor does a size that saturates |
| ChunkSizes.BadTrailer | include/httplib.h:4467-4482 | nor a trailer line that is too long or ends the input |
| ChunkSizes.HexSpelled | include/httplib.h:2741-2749 | the sizes written are lower-case digits without leading zeros whose places sum to the number |
| ChunkSizes.WireBytes | include/httplib.h:4714-4811 | the bytes of a write and of `done` |
| Chunked.RoundTrip | include/httplib.h:4421-4811 | what was written decodes to the writes before the first `done`, and not at all without one; all writes come back if and only if there is a `done` and nothing was written after it |
| Chunked.EmptyWriteEnds | include/httplib.h:4728-4811 | an empty write that ends its call stops the writer; the same write earlier in a call does not (`WriteAfterEmptyGoesOn`) |
| Chunked.WriteThenRead | include/httplib.h:4421-4811 | the writer method followed by the reader method over a stream with arbitrary short reads succeeds if and only if the provider said it was done, and returns what it wrote before |
| Multipart.BodyParser.BufFind | include/httplib.h:5171-5190 | the two-level search finds the first occurrence in the window |
| Multipart.BodyParser.BufAppend | include/httplib.h:5194-5210 | shifting in place and appending keeps the unread bytes and adds the new ones |
| Multipart.FindMeaning | include/httplib.h:5171-5190 | the position is an occurrence, and there is none before it |
| Multipart.EmittedMeaning | include/httplib.h:5077-5099 | the content is what precedes the first occurrence; while there is none, all but as many bytes as the delimiter has |
| Multipart.FoundInWindow | include/httplib.h:5088-5095 | what was emitted already cannot hide a delimiter, even one cut between two inputs |
| Multipart.BodyParser.Parse | include/httplib.h:5077-5099 | one call in the body state emits exactly what its input makes certain |
| Multipart.BodyParser.ParseAll | include/httplib.h:4986-5099 | however the input is cut, the content emitted is what precedes the first CRLF, two dashes and the boundary, and the delimiter follows it |
| Base64.Encode | include/httplib.h:2785-2811 | the bit accumulator with 32-bit overflow yields the three-byte-group definition of RFC 4648, section 4 |
| Base64.Length | include/httplib.h:2785-2811 | the length is four times the number of groups |
| Base64Symbols.SymbolAt | include/httplib.h:2785-2811 | every symbol, on the literal alphabet: it stands for the six bits at its place in the 24 bits of its group, zero behind the end, and is `=` where no bit of the text is left |
| Base64.DecodeEncode | include/httplib.h:2785-2811 | the reference decoder inverts it for every byte string |
| Base64.EncodeDecode | include/httplib.h:2785-2811 | every text the strict decoder accepts is an encoding: encoding is a bijection onto the canonical texts |
| Base64.Sextets | include/httplib.h:2795-2802 | each symbol depends only on the low twelve bits, so overflow of the accumulator is harmless, and only shifts by 0, 2, 4 and 6 occur |
| UrlQuery.EncodeQueryParam | include/httplib.h:2870-2889 | the loop yields the percent-encoding |
| UrlQuery.DecodeUrl | include/httplib.h:2923-2958 | the loop with its index jumps decodes piece by piece, both escape forms and the error paths included |
| UrlQuery.Utf8OfCode | include/httplib.h:2751-2781 | the bytes are the UTF-8 of the code point; none exactly for surrogates and beyond the last plane |
| UrlQuery.DecodeEncoded | include/httplib.h:2870-2958 | an encoded value in front of any text decodes to the value and the rest of the text |
| UrlQuery.RoundTrip | include/httplib.h:2870-2958 | decoding inverts encoding for every byte string, with or without plus-to-space |
| UrlQuery.DecodedUnchanged | include/httplib.h:2923-2958 | decoding never lengthens a text and leaves it alone if and only if it has no plus and no escape |
| UrlBytes.EncodeMeaning | include/httplib.h:2870-2889 | a byte is kept if it is one of the literal list, and else becomes a percent sign and two upper-case digits |
| UrlBytes.PlusMeaning | include/httplib.h:2923-2958 | a plus is a blank if that is asked for, and else a plus |
| UrlBytes.EscapeMeaning | include/httplib.h:2940-2949 | a percent sign and two digits of either case are the byte of that value |
| UrlBytes.UnicodeMeaning | include/httplib.h:2929-2939 | a percent sign, `u` and four digits are the UTF-8 bytes of that code point, and nothing for a surrogate |
| UrlBytes.BareMeaning | include/httplib.h:2928-2955 | a percent sign that begins neither stays |
| QueryText.Trim | include/httplib.h:2969-2978 | the two scans over the whole text give the stripped piece, or an empty range exactly for a blank piece |
| QueryText.Split | include/httplib.h:3018-3038 | the trimmed non-empty pieces, in order |
| QueryText.ParamsToQueryStr | include/httplib.h:4849-4859 | the pairs in multimap order, joined by ampersands |
| QueryText.ParseQueryText | include/httplib.h:4861-4882 | repeated pieces and empty names are skipped, the others decoded and inserted behind equal keys |
| QueryText.EmplaceSorted | include/httplib.h:4879-4879 | insertion keeps the multimap's key order |
| QueryText.ParsedAdds | include/httplib.h:4861-4882 | parsing adds one entry for each named piece not seen before, keeps key order, and keeps the entries of one key in the order of the text |
| QueryLines.TextMeaning | include/httplib.h:4861-4882 | the entries of fields with ampersands between them and blanks and tabs around them: name and value around the first equals sign, decoded, one for each new field with a name |
| QueryLines.ParsedMeaning | include/httplib.h:4861-4882 | parsing adds exactly these, no name before a smaller one, and those of one name in the order of the text |
| QueryLines.LessMeaning | include/httplib.h:4879-4879 | the order of names: at the first difference one ends or has the smaller byte |
| QueryLines.PrintedMeaning | include/httplib.h:4849-4859 | what is printed is such a text, on literal bytes |
| QueryText.PrintParse | include/httplib.h:4849-4882 | a multimap with plain names printed and parsed comes back without repetitions, hence equal if and only if its pairs are distinct |
| QueryKeys.PrintParseIff | include/httplib.h:4849-4882 | any list of parameters printed and parsed comes back if and only if it is sorted, its names are plain and its pairs distinct |
| QueryKeys.OneParam | include/httplib.h:4849-4882 | one parameter comes back if and only if its name is plain |
| ByteRanges.NormalMeaning | include/httplib.h:5321-5348 | an accepted range denotes exactly the positions asked for; refused are exactly those that ask for none and over-long suffixes |
| ByteRanges.LongSuffixIsRefused | include/httplib.h:5326-5348 | for every content, the suffix of its length is served and the suffix one longer, which selects the same positions, refused |
| ByteRanges.RangeError | include/httplib.h:5301-5365 | for a 2xx answer with ranges, no error if and only if at most 1024, all inside the content, firsts ascending, at most two meeting an earlier one; and what the vector holds afterwards in each case |
| ByteRanges.NextRange | include/httplib.h:5350-5361 | the two remembered positions decide order and overlap with all earlier ranges |
| ByteRanges.ContentRangeReadsBack | include/httplib.h:5377-5389 | the header field reads back as first position, last position and content length |
| ByteRanges.MakeMultipartRanges | include/httplib.h:5391-5442 | the three appends of each round yield the parts in order, then the closing delimiter; `PartReader` says what these are |
| PartReader.AnswerReads | include/httplib.h:5391-5442 | a reader of delimiter lines, header lines up to the empty one, and as many bytes as the range field says finds one part for each range, in order, with its header lines and exactly its bytes and CRLF, and at the end two dashes, the boundary and two dashes |
| PartReader.MakeAndRead | include/httplib.h:5391-5442 | the same of what the method returns |
| PartReader.DecimalAmount | include/httplib.h:5377-5389 | the positions are spelled in decimal digits whose places sum to them |
| ByteRanges.MultipartRangesLength | include/httplib.h:5444-5460 | the length computed ahead is the length of what is produced |
| BufferedRead.SocketStream.Read | include/httplib.h:6111-6155 | the buffered read keeps the socket's contract: what is handed on and what is still to come are what was to come before, zero only at the end |
| BufferedRead.SocketStream.ReadMany | include/httplib.h:6111-6155 | over any sequence of reads of any sizes, bytes handed on followed by bytes buffered are the bytes received, in order |
| LogPattern.LogFormatter.Collect | src/Log.cc:348-430 | the scan with its jumping index terminates on every pattern and collects what the definition says |
| LogPattern.LogFormatter.Init | src/Log.cc:348-469 | item by item: the text, the letter of the literal table with its format, or the text that names an unknown letter; the error flag is set exactly by an unclosed format or an unknown letter |
| LogPattern.ScanPrinted | src/Log.cc:348-430 | printing any well-formed item list and scanning it recovers the list without error, and text behind the last directive is lost |
| LogPattern.LonelyPercent | src/Log.cc:348-430 | a percent sign at the end of a pattern is dropped with nothing but the text before it kept |
| LogPattern.NoDirective | src/Log.cc:348-430 | a percent sign before no letter is dropped together with that character |
| LogPattern.OpenFormat | src/Log.cc:395-412 | a format that is not closed is marked, in front of the text before it, is an error, and the scan goes on at the brace |
| LogPattern.DatePattern | src/Log.cc:19-19 | the head of the default pattern |
| LogPattern.Reformat | src/Log.cc:348-469 | a formatter made from a printed list holds, item by item, that list, formats included, and its error flag is set if and only if a letter is unknown |

## Left out

- ByteArray file input and output and `toHexString`: plumbing around the modelled operations.
- Floats and doubles in records: they travel as their 32- and 64-bit words.
- ByteArrays.ByteArray.Read: reading zero bytes at the very end of the capacity is excluded, because the source dereferences a null pointer there.
- ByteArrays.ByteArray.ReadAt: walks that leave the chain go through a null pointer and are excluded; `PositionedReadsStay` states when none does.
- ByteArrays.ByteArray.GetReadBuffersAt: the same for walks that leave the chain.
- SocketIo.Receive: a length of zero is excluded, because the source takes the address of the first element of an empty vector.
- SocketIo.Send: the same for a length of zero or nothing unread.
- IoManagers.IoManager.HandleReport: a report with an unregistered bit beside a registered one is excluded, because the source then calls through a null scheduler; `FdEvents.StaleReport` states when.
- Registration: after a resize has cut off a context in use, the run is followed only as far as `TwoCallsRace` does.
- Event masks other than READ and WRITE, tickling and the wake-up descriptor, the idle-thread count: they change no modelled state.
- FiberProtocol: `Timer::refresh` and `Timer::reset`, and a worker leaving its loop after a yes, are not steps.
- WaitingIo.WakesOnce: other fibers are seen only through what they do to the manager. The conversion of the timeout and `errno` values are not modelled.
- PartReader.AnswerReads: the content type has no line feed, as a header value must not; with one, a reader sees more lines.
- Liveness: no statement says that a queued task is eventually run.
- Multipart states other than the body, and the part headers: header matching uses regular expressions, and the opening boundary is not independent of how the input is cut.
- Multipart.BodyParser.Parse: stops where the body state is left; the content callback always accepts.
- Chunked trailers are accepted or refused as in the source, but their header fields are not parsed; the compressor is the identity and writes to the socket succeed.
- The generated HTTP parsers, addresses, configuration, log appenders, servlets and the client and server classes of include/httplib.h: generated tables or plumbing over the cores modelled here.

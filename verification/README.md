# Verified model of a userspace ublk block device

This project models the data plane, the in-memory backends, the metrics, the parameter codec, the
buffer pool and the device lifecycle of a Go library that serves Linux ublk block devices from
userspace, and proves what those parts promise. `dafny verify dfyconfig.toml` checks everything.

## What is modelled

**One queue (Protocol, ProtocolTokens, ProtocolSafety, ProtocolData, ProtocolTheorems, ProtocolProgress).** A queue is a
step system: the runner primes its tags with FETCH_REQ, waits for completions, handles a batch of them
(take, serve, prepare COMMIT_AND_FETCH_REQ), and flushes once; the kernel, between any two of those
steps, consumes any number of published entries, writes a descriptor and data into a tag's buffer, and
posts one completion per command. A run is any sequence of enabled steps, with any errors. The central
invariant is a token count: each primed tag is in exactly one place (prepared, published, armed in the
kernel, completed and unread, in the batch, or owned by the handler). From it follow that the error
branches marked as impossible in the code are unreachable, that neither ring can be full when it is
used, that every successful completion is answered by exactly one commit carrying the result of its own
descriptor at any length, that the runner takes at most a known number of steps before it waits again
however the kernel runs, and that while every read and write issued is at most 64 KB long the queue is an
atomic flat disk.

**What a request does (Laws).** The same, said in the protocol's own numbers: the operation as the low byte of the
descriptor's word (0 read, 1 write, 2 flush, 3 discard), places and lengths by multiplication, 65536 bytes a tag, data
byte by byte, -5 for an error. The atomic disk and the runner's step both obey, and so do the commits and commands of
every run.

**The queue in memory (Ring, Runner, Backends).** The same queue as mutable objects: wrapping 32-bit ring
counters with masked slots, the tail that is local until a flush, the completion pool, the arrays of tag
states and command records, tag buffers shared with the kernel, and the backend's bytes. Each method of
the runner is proved to perform steps of the protocol on what is in memory and nothing else, with the
kernel running between any two of them; a new runner starts in the protocol's initial state, so all
theorems about runs hold of it. Long requests take their buffers from the pool and put them back, so that
the pool is intact after any number of iterations. Both backends are proved against one flat-disk definition (FlatDisk).

**Sharded locking (Shards, ShardLocks).** Any number of concurrent ReadAt, WriteAt and Discard calls over 64 KB
shards, as interleaved lock, one-byte copy and unlock steps with Go's pending-writer rule. Every schedule
gives the data and the read results of the calls run one after another in an order that respects real
time, some call can always step, and every schedule is finite.

**The whole device (MultiQueue, ConcurrentDevice).** Several queues over one sharded backend, the calls they make,
every lock, byte copy and protocol step interleaved: the backend's bytes and every queue's answers are those of
one atomic disk serving the requests issued, in the order of their lock points; that order respects real time,
and no interleaving deadlocks.

**Metrics (Metrics, Recorders, QueueDepthMax).** The cumulative latency histogram, the interpolated percentiles
against the true order statistic, and, under any interleaving of their atomic accesses, the counters and the
compare-and-swap maximum.

**Wire formats and limits (Records, Params, Geometry).** Little-endian records, the parameter block with
optional sections, the padding SetParams applies, and what the advertised sector limits guarantee to the
request path.

**Buffer pool and lifecycle (BufferPool, Commands, Lifecycle).** The four capacity-keyed pools over any run
of gets, puts, re-slicings and collections; and CreateAndServe, Create, Start, Stop, Close and State with
every kernel outcome a parameter, judged by the log of what was asked of the kernel.

## Where the code does not do what it says

- A read or write above 64 KB works on a pooled buffer that is never copied to or from the address given to
  the kernel: its data reaches the kernel exactly up to 64 KB (`RequestIo.TransfersExactlyUpToBuf`).
  The kernel for its part puts a long write's data at that address, and so over the next tag's buffer: a request
  spares the next tag's bytes exactly when it is no write or at most 64 KB (`ProtocolTheorems.SparesExactlyUpToBuf`).
  With `MaxIOSize` at 64 KB, as ublk-mem sets it, the queue is a disk (`Geometry.LimitedQueueIsADisk`);
  the library's default of 1 MB is beyond that.
- A flush asks the kernel for the number of new entries only, so what an earlier call left is never asked for
  again: the backlog is the sum of all shortfalls (`Ring.Ring.NoBacklogExactlyWhen`).
- A request above 1 MB, discards included, panics in the pool, and one at an offset that is negative as a signed
  number panics in the backend's indexing or slicing (`RequestIo.PanicsExactlyWhen`).
- The committed result counts 512-byte sectors while the length counts blocks: they agree exactly for block
  size 512 (`Geometry.CommitsItsLength`).
- The percentile estimate shares a bucket with the order statistic it stands for, for every history of a given
  length, exactly when operations times percentile is at least one (`Metrics.SoundExactlyWhen`). With a single
  operation of five seconds the 99th percentile is reported as one microsecond (`Metrics.SingleSlowOperation`).
- unmarshalParams checks the declared length against the input only, so a section may be read beyond it
  (`Params.DeclaredLengthNotEnforced`); `Params.ReadsBeyondExactlyWhen` says when.
- When opening the character device fails with anything but "not found", CreateAndServe returns without
  DEL_DEV; on every other failing path after ADD_DEV it tries (`Lifecycle.CreateAndServe`,
  `Lifecycle.RefusedOpen`).
- A Stop that fails after closing the runners leaves the device started with no runners, so that Start
  refuses; and after a Stop that succeeds, State says created, not stopped (`Lifecycle.Device.Stop`,
  `Lifecycle.FailedStop`).
- An empty call at offset 0 locks shard 0, because Go's division truncates towards zero
  (`Shards.ShardRangeCovers`).
- MockBackend's Discard and Resize do not ask whether it is closed and can index dropped data
  (`Backends.MockBackend.Discard`, `Backends.MockBackend.Resize`).

## Model

| member | source | states |
|---|---|---|
| `ProtocolTheorems.StepInv` | internal/queue/runner.go:396-638 | Every step of the runner and of the kernel keeps the whole queue invariant: tokens, histories and results always, and buffers, log and atomic disk while every read and write issued is at most 64 KB |
| `ProtocolTheorems.RunInv` | internal/queue/runner.go:280-351 | The invariant holds in every state any run reaches from a new queue |
| `ProtocolTheorems.OnePlacePerTag` | internal/queue/runner.go:443-495 | Each primed tag is in exactly one place, its state matches the command that is out for it, and a stopped loop never stopped on an error the code calls impossible |
| `ProtocolTheorems.CompletionsDecode` | internal/queue/runner.go:410-437 | Tag and commit bit decoded from any completion are those encoded at submission and agree with the tag's state |
| `ProtocolTheorems.RingsNeverFull` | internal/uring/interface.go:11-14 | However few entries the kernel has taken, there is room at every prepare and every post, in-flight entries never exceed the depth, and a batch fits the completion ring |
| `ProtocolTheorems.QuietBetweenIterations` | internal/queue/runner.go:334-350 | Between iterations every tag is primed, none is Owned, nothing is unpublished and nothing unhandled |
| `ProtocolTheorems.IsAtomicDisk` | internal/queue/runner.go:511-596 | While every read and write issued is at most 64 KB the backend equals the fold of the served requests in serving order, every answer is the serial one, and each tag's requests appear in issue order |
| `ProtocolTheorems.AnsweredOnce` | internal/queue/runner.go:443-495 | At most one request per tag is unanswered, exactly while its completion is on its way or being served |
| `ProtocolTheorems.KernelSeesTheAnswer` | internal/queue/runner.go:600-638 | A commit prepared, published or in the kernel carries the tag's last result and buffer address; while every read and write issued is at most 64 KB the buffer still holds that answer's bytes |
| `ProtocolTheorems.SparesExactlyUpToBuf` | internal/queue/runner.go:613-614 | In any reachable state a request issued to one tag leaves the next tag's bytes in place, whatever data it brings, exactly when it is no write or at most 64 KB |
| `ProtocolTheorems.CommitsAreTheAnswers` | internal/queue/runner.go:600-638 | Over any run the results committed for a tag are its answers' results, each once and in order |
| `ProtocolTheorems.CommitsCarryTheirOwnResults` | internal/queue/runner.go:600-621 | The i-th commit of a tag carries the result of the i-th request issued to it, at any length: its sector count, or an error exactly for unknown operations and writes beyond the end |
| `ProtocolTheorems.OneCommitPerCompletion` | internal/queue/runner.go:396-440 | Commits prepared for a tag are as many as its successful completions handled, over any number of batches |
| `ProtocolProgress.BoundedWork` | internal/queue/runner.go:396-440 | In every run, with kernel steps interleaved anyhow and whatever fails, the runner takes at most a computed number of steps from any state before it waits again |
| `ProtocolProgress.ComesToRest` | internal/queue/runner.go:396-440 | From every reachable state the runner can come to rest within that number: idle, or stopped for an error a completion or request brought, and idle if none did |
| `ProtocolProgress.RestedHasAnswered` | internal/queue/runner.go:396-440 | When idle, every request is answered except those whose completion is not yet drained |
| `ProtocolSafety.RunTokens` | internal/queue/runner.go:20-40 | The token count, the match between tag states and commands, and the phase facts hold in every reachable state |
| `ProtocolTokens.QueuedBound` | internal/uring/interface.go:11-14 | Entries in both rings and the batch have distinct tags, hence at most depth of them |
| `Ublk.UserDataRoundTrip` | internal/queue/runner.go:374-374 | The shifted and or-ed user data decodes, by the masks of the loop, to the same tag and commit bit |
| `Ublk.OpIsLowByte` | internal/uapi/structs.go:68-71 | The operation of a word made of a byte and flags above it is that byte |
| `Ublk.ResultTellsError` | internal/queue/runner.go:603-606 | Below 2^22 sectors the result is negative exactly for an error, and then -5 |
| `RequestIo.SmallRequestIsAtomic` | internal/queue/runner.go:530-596 | Serving a descriptor whose read or write is at most 64 KB on shared tag memory is one atomic disk call; no other tag's buffer changes at any length |
| `RequestIo.PanicsExactlyWhen` | internal/queue/runner.go:536-592 | From the pool's slicing and the backend's indexing and slicing: serving panics exactly for lengths over 1 MB or disk operations at byte offsets negative as signed 64-bit numbers |
| `RequestIo.RefusedExactlyWhen` | internal/queue/runner.go:566-595 | Whether a request is answered with an error depends on its descriptor and the disk's size alone: unknown operations, and writes beyond the end |
| `RequestIo.TransfersExactlyUpToBuf` | internal/queue/runner.go:548-556 | An in-range read or write moves its bytes between disk and the kernel's address, whatever they are, exactly up to 64 KB |
| `RequestIo.LargeDoesNotTransfer` | internal/queue/runner.go:550-553 | The concrete disk, memory and pool contents on which a longer request does not |
| `Laws.ServeRead` | internal/queue/runner.go:511-570 | Operation 0 inside the disk and at most 64 KB: every byte of the range arrives in the 65536 bytes of its tag, the disk is unchanged, and the answer is the sectors times 512 |
| `Laws.ServeWrite` | internal/queue/runner.go:511-575 | Operation 1: each byte of the range on the disk becomes the buffer's, every other byte and the buffer stay, and the answer is the sectors times 512 |
| `Laws.ServeDiscard` | internal/queue/runner.go:511-588 | Operation 3, up to 1 MB: each byte of the range becomes zero, every other byte and the buffer stay |
| `Laws.ServeFlush` | internal/queue/runner.go:577-581 | Operation 2 changes neither disk nor buffer and succeeds |
| `Laws.ServeRefused` | internal/queue/runner.go:590-606 | Operations above 3, and writes at or beyond the end, are answered with -5 and change nothing |
| `Laws.ReadOnAtomicDisk` | internal/queue/runner.go:567-568 | The specification agrees, byte by byte: a read fills the front of the buffer from the disk and leaves the rest |
| `Laws.WriteOnAtomicDisk` | internal/queue/runner.go:572-573 | The specification's write stores the front of the buffer and nothing else |
| `Laws.DiscardOnAtomicDisk` | internal/queue/runner.go:582-586 | The specification's discard leaves zeros and nothing else |
| `Laws.OtherOnAtomicDisk` | internal/queue/runner.go:590-606 | The specification refuses every other operation with -5 |
| `Laws.CommitsTellErrors` | internal/queue/runner.go:600-621 | Over any run, below 2^22 sectors: the i-th commit of a tag is -5 exactly when its request had an operation above 3 or was a write at or beyond the end, and its sectors times 512 otherwise |
| `Laws.CommandsOut` | internal/queue/runner.go:363-376 | In every reachable state every command that is out carries its queue, its tag, the address of that tag's 65536 bytes, and user data made of commit bit, queue and tag |
| `Laws.KernelIsFree` | internal/queue/runner.go:396-440 | In every reachable state the kernel may take any published command and complete any it holds with any result, descriptor and up to 65536 bytes, so runs leave nothing of it out |
| `Laws.IssuesExactly` | internal/queue/runner.go:497-508 | In every reachable state a completion with result 0 puts its bytes in the 65536 of its tag, its descriptor in the tag's place and one request on record, and any other result leaves all three alone |
| `Laws.TakesExactly` | internal/queue/runner.go:443-495 | A completion stops the loop exactly when its result is not 0, and otherwise its own tag is served |
| `Ring.SlotOf` | internal/uring/minimal.go:840-867 | Masking a wrapped 32-bit counter gives the slot of the unwrapped position |
| `Ring.StoreNext` | internal/uring/minimal.go:840-867 | Storing the next entry overwrites no entry not yet consumed |
| `Ring.Ring.constructor` | internal/uring/minimal.go:238-262 | A new ring is empty and its completion pool is at least as large as the completion ring |
| `Ring.Ring.PrepareSqe` | internal/uring/minimal.go:840-867 | Refused exactly when the ring is full; otherwise appended, and nothing the kernel may see changes |
| `Ring.Ring.FlushSubmissions` | internal/uring/minimal.go:872-896 | Everything prepared is published, in order, whatever the system call then reports |
| `Ring.Ring.FlushAndTake` | internal/uring/minimal.go:872-896 | A flush whose call takes at most the new entries' number takes the oldest first and leaves a backlog larger by its shortfall |
| `Ring.Ring.NoBacklogExactlyWhen` | internal/uring/minimal.go:872-896 | The backlog is the sum of all shortfalls, so it is empty exactly when no call came up short |
| `Ring.Ring.KernelConsume` | internal/uring/minimal.go:872-896 | The kernel sees each published entry once, in order, across counter wrap-around |
| `Ring.Ring.KernelPost` | internal/uring/minimal.go:616-650 | A posted completion overwrites none not yet drained |
| `Ring.Ring.Drain` | internal/uring/minimal.go:616-702 | Returns exactly the completions between head and observed tail, in order, once each, in pairwise distinct pool records and without the fallback allocation |
| `Runner.Runner.constructor` | internal/queue/runner.go:172-200 | A new runner's memory is the protocol's initial state over the backend's data |
| `Runner.Runner.PrepareIoCmd` | internal/uring/minimal.go:550-595 | The tag's command record reaches the ring as the command with its own queue, tag, result and buffer address |
| `Runner.Runner.SubmitInitialFetchReq` | internal/queue/runner.go:354-391 | Performs protocol steps only; on success the tag is primed and its fetch published, and it fails when the system call does |
| `Runner.Runner.Prime` | internal/queue/runner.go:221-240 | One fetch per tag, in order; ends idle with all tags primed and no call failed, or stopped with an error that can happen |
| `Runner.Runner.AcceptCompletion` | internal/queue/runner.go:443-495 | The switch on state and result is the protocol's take step |
| `Runner.Runner.PerformIo` | internal/queue/runner.go:566-592 | The switch on the operation, over the real backend and buffers, computes the request function on both and panics where the backend call does |
| `Runner.Runner.LongIo` | internal/queue/runner.go:548-556 | A long request panics where the pool or the backend does, and the pool's buffers end where they were |
| `Runner.Runner.ServeRequest` | internal/queue/runner.go:511-556 | Serving changes memory exactly as the protocol's serve step, panics included |
| `Runner.Runner.SubmitCommitAndFetch` | internal/queue/runner.go:600-638 | The commit step, with the result of the descriptor served |
| `Runner.Runner.HandleCompletion` | internal/queue/runner.go:443-495 | One completion leaves the batch and memory stays a reachable state, whatever the kernel does meanwhile |
| `Runner.Runner.WaitForCompletion` | internal/uring/minimal.go:616-702 | Every completion posted before is drained; the records returned hold the batch, or the wait failed and the loop stops |
| `Runner.Runner.ProcessRequests` | internal/queue/runner.go:396-440 | Never fails with an impossible error, nor with a system call's unless that failed; on success every completion posted before is handled, no tag is Owned and local and shared tail agree |
| `Runner.Runner.IoLoop` | internal/queue/runner.go:280-351 | Priming and any number of iterations stay within the protocol's runs and leave the pool intact, and end with a system call's error only where one failed |
| `Runner.Serve` | internal/queue/runner.go:280-351 | A runner created and run over a backend ends without an impossible error and with the pool intact, and while no read or write was longer than a tag's buffer the backend's bytes are the atomic disk's |
| `FlatDisk.ReadBack` | examples/ublk-mem/mem.go:40-86 | A read after a write returns the bytes that fit, and disjoint reads are unaffected |
| `FlatDisk.ReadGives` | examples/ublk-mem/mem.go:40-62 | A read gives exactly the bytes of its range that lie on the disk, and changes none |
| `FlatDisk.WriteLeaves` | examples/ublk-mem/mem.go:64-86 | After a write each byte on the disk is the payload's inside the range and the old one outside |
| `FlatDisk.DiscardLeaves` | examples/ublk-mem/mem.go:101-124 | After a discard each byte on the disk is zero inside the range and the old one outside |
| `Shards.MissesShardExactlyWhen` | examples/ublk-mem/mem.go:50-53 | The locking loop indexes a missing shard exactly at offsets a shard or more before the start, save for empty calls whose truncated range is empty |
| `Shards.CallPanicsExactlyWhen` | examples/ublk-mem/mem.go:45-55 | A call runs out of bounds, in its shards or its slice, exactly at negative offsets |
| `Backends.MemoryBackend.ForShards` | examples/ublk-mem/mem.go:50-59 | The loop over shards fails exactly when one of them does not exist |
| `Backends.MemoryBackend.ReadAt` | examples/ublk-mem/mem.go:40-62 | Fills the buffer with the flat disk's bytes, short at the end of the disk; panics exactly where indexing or slicing does |
| `Backends.MemoryBackend.WriteAt` | examples/ublk-mem/mem.go:64-86 | The flat disk after the write, an error beyond the end, or a panic with nothing changed |
| `Backends.MemoryBackend.Discard` | examples/ublk-mem/mem.go:101-124 | Every byte of the range on the disk is zero, every other byte as before; or a panic with nothing changed |
| `Backends.MockBackend.ReadAt` | testing.go:34-56 | As the flat disk while open, refused when closed, out of range exactly at negative offsets |
| `Backends.MockBackend.WriteAt` | testing.go:59-81 | As the flat disk while open, refused when closed or beyond the end, out of range exactly at negative offsets |
| `Backends.MockBackend.Close` | testing.go:89-97 | The data is dropped and the size kept |
| `Backends.MockBackend.Discard` | testing.go:110-129 | Every byte of the range on the disk is zero, every other byte as before; out of range exactly with bytes to clear at a negative offset or on a closed backend |
| `Backends.MockBackend.Resize` | testing.go:175-195 | Growing appends zeros, shrinking drops the tail, negative sizes are refused; out of range exactly when shrinking a closed backend to more than nothing |
| `Shards.ShardRangeCovers` | examples/ublk-mem/mem.go:31-38 | The locked shards exist and are exactly those of the range's bytes, with the truncation at offset 0 and length 0 |
| `Shards.ShardsTile` | examples/ublk-mem/mem.go:20-38 | Shards are 65536 bytes each and there are just enough of them for the disk |
| `ShardLocks.Exclusion` | examples/ublk-mem/mem.go:50-59 | Two calls copying the same byte are both reads |
| `ShardLocks.ReadersShare` | examples/ublk-mem/mem.go:50-59 | Two reads inside one shard can be copying at the same time |
| `ShardLocks.StepInv` | examples/ublk-mem/mem.go:40-124 | Every interleaved step keeps lock ownership, partial copies and the serial specification in agreement |
| `ShardLocks.SerialReads` | examples/ublk-mem/mem.go:40-62 | Under any schedule each read returns what it would if calls ran one after another in lock-point order, each once |
| `ShardLocks.SerialData` | examples/ublk-mem/mem.go:64-124 | When all calls are done the data is that of the serial run; calls outside the order were beyond the end |
| `ShardLocks.RealTimeOrder` | examples/ublk-mem/mem.go:40-124 | A call finished before another's first step comes earlier in the serial order, so the backend is linearizable |
| `ShardLocks.Progress` | examples/ublk-mem/mem.go:74-83 | No deadlock: while a call is unfinished some call can step, pending writers included |
| `ShardLocks.Terminates` | examples/ublk-mem/mem.go:112-121 | A fixed measure falls by one each step, so every schedule is bounded, and one that cannot go on has finished every call |
| `MultiQueue.StepDevice` | backend.go:240-278 | Every step of every queue over the shared backend keeps each queue's invariant and the device's atomic disk |
| `MultiQueue.DeviceIsAtomicDisk` | backend.go:240-278 | Under any interleaving of any number of queues, while reads and writes are at most 64 KB, the device's bytes and every queue's answers are those of one serial run of a log that holds each tag's answered requests in issue order |
| `MultiQueue.RealTimeOrder` | backend.go:240-278 | A request answered before another is issued, by whichever queues, comes earlier in that log |
| `ConcurrentDevice.StepInv` | examples/ublk-mem/mem.go:40-124 | Every call begun, lock, byte copy, lock point and protocol step keeps queues and lock machine in agreement |
| `ConcurrentDevice.BytesAreTheDisk` | examples/ublk-mem/mem.go:64-124 | Whenever no call is copying, the sharded backend's bytes are what serving all queues' requests in lock-point order leaves, and those are the requests issued and answered, per tag in issue order |
| `ConcurrentDevice.CopiesAreTheAnswers` | examples/ublk-mem/mem.go:40-62 | The bytes a read copied among other queues' writes are in the very answer its tag was served |
| `ConcurrentDevice.NoDeadlock` | examples/ublk-mem/mem.go:50-59 | Whatever queues and kernel are at, while a call has not returned some call can step |
| `ConcurrentDevice.CallsRunDown` | examples/ublk-mem/mem.go:50-59 | Each step of a call lowers what the calls have left by one, and no step of a queue or of the kernel raises it |
| `ConcurrentDevice.RealTimeOrder` | examples/ublk-mem/mem.go:40-124 | A request committed before another is issued comes earlier in the order of lock points |
| `Metrics.Metrics.RecordLatency` | metrics.go:135-145 | Every bucket is the number of latencies recorded at most its bound |
| `Metrics.CountLeCounts` | metrics.go:135-145 | The count a bucket must hold is the number of recorded latencies at most its bound, as the size of a set |
| `Metrics.Metrics.RecordRead` | metrics.go:76-84 | One more read, bytes or an error, and the histogram of the longer history |
| `Metrics.Metrics.RecordWrite` | metrics.go:87-95 | The same for writes |
| `Metrics.Metrics.RecordDiscard` | metrics.go:98-106 | The same for discards |
| `Metrics.Metrics.RecordFlush` | metrics.go:109-115 | The same for flushes |
| `Recorders.ExactAtQuiescence` | metrics.go:76-145 | Whatever the interleaving of their atomic additions, once all recordings are complete every bucket, count, total, byte and error counter is exact |
| `Metrics.Metrics.CalculatePercentile` | metrics.go:273-303 | The loop computes the estimate; with a target of at least one it is in the bucket of the true order statistic |
| `Metrics.Metrics.Percentiles` | metrics.go:198-270 | Each of the 50th, 99th and 99.9th percentiles shares a bucket with its order statistic when operations times percentile is at least one, and they ascend |
| `Metrics.EstimateInBucket` | metrics.go:283-299 | The estimate lies in the target's bucket and no subtraction underflows |
| `Metrics.InterpolatesLinearly` | metrics.go:285-298 | Inside its bucket the estimate is as far between the bounds as the target is between the counts, rounded down |
| `Metrics.BoundsAreDecades` | metrics.go:9-23 | The eight bounds are the decades from one microsecond to ten seconds |
| `Metrics.EstimateMono` | metrics.go:273-303 | A higher target never gives a lower estimate |
| `Metrics.EstimateBracketsOrderStatistic` | metrics.go:273-303 | Estimate and target-th smallest latency share a bucket, for any history |
| `Metrics.KthExists` | metrics.go:273-303 | Every rank up to the number of latencies has an order statistic |
| `Metrics.SoundExactlyWhen` | metrics.go:273-303 | Over all histories of a given length, the estimate shares a bucket with the order statistic it stands for exactly when operations times percentile is at least one |
| `Metrics.TargetPositive` | metrics.go:279-279 | The target is at least one exactly when operations times percentile is |
| `Metrics.ZeroTargetIsBlind` | metrics.go:283-299 | A zero target gives zero or the first bound, whatever was recorded |
| `Metrics.SingleSlowOperation` | metrics.go:273-303 | The concrete history on which the 99th percentile is wrong |
| `QueueDepthMax.FailedSwapGains` | metrics.go:118-132 | After a failed swap the recorder is strictly nearer to the maximum |
| `QueueDepthMax.MaximumIsExact` | metrics.go:118-132 | Every schedule is bounded; the maximum is always a recorded depth or zero, and the largest once all are done |
| `QueueDepthMax.MaximumNeverFalls` | metrics.go:118-132 | Along any schedule the maximum never decreases |
| `Records.UnpackPack` | internal/uapi/marshal.go:43-101 | Decoding an encoded record restores every field, for any layout and whatever follows |
| `Records.PackUnpack` | internal/uapi/marshal.go:60-101 | Encoding what was decoded gives the same bytes, so decoding is injective |
| `Records.PackField` | internal/uapi/marshal.go:241-261 | Each field lies little-endian at the sum of the widths before it |
| `Records.Unmarshal` | internal/uapi/marshal.go:90-101 | Refused exactly when the input is shorter than the record, and otherwise determined by its bytes |
| `Records.SignedRoundTrip` | internal/uapi/marshal.go:78-101 | Signed 32-bit fields survive the unsigned encoding |
| `Records.IoCmdSize` | internal/uapi/structs.go:79-90 | The I/O command is 16 bytes |
| `Records.CtrlCmdSize` | internal/uapi/structs.go:21-33 | The control command is 32 bytes |
| `Records.DevInfoSize` | internal/uapi/structs.go:36-54 | The device info is 64 bytes |
| `Records.BasicSize` | internal/uapi/structs.go:103-113 | The basic section is 32 bytes |
| `Records.OtherSectionSizes` | internal/uapi/structs.go:116-139 | The discard, device-number and zoned sections are 20, 16 and 32 bytes |
| `Records.IoCmdFields` | internal/uapi/structs.go:79-90 | Queue, tag, result and address lie at bytes 0, 2, 4 and 8, with 2, 2, 4 and 8 bytes |
| `Records.CtrlCmdFields` | internal/uapi/structs.go:21-33 | Place and width of every field of the control command |
| `Records.DevInfoFields` | internal/uapi/structs.go:36-54 | Place and width of every field of the device info |
| `Records.BasicFields` | internal/uapi/structs.go:103-113 | Place and width of every field of the basic section |
| `Records.OtherSectionFields` | internal/uapi/structs.go:116-139 | Place and width of every field of the other sections |
| `Params.SizesAreWidths` | internal/uapi/marshal.go:104-118 | The section sizes are those of the records |
| `Params.MarshalParams` | internal/uapi/marshal.go:104-154 | The buffer has exactly the length its types need, declares it, and holds each section present at its place |
| `Params.EncodingUnique` | internal/uapi/marshal.go:104-154 | A block has only one such encoding: every byte is accounted for |
| `Params.ParamBlock.Unmarshal` | internal/uapi/marshal.go:157-201 | Succeeds exactly when the input holds the declared length and all sections, and writes exactly the sections that fit, also on failure |
| `Params.AcceptsExactly` | internal/uapi/marshal.go:157-198 | On the bytes: accepted exactly when the first four, as a little-endian number, are at most the input's length and the input has 8 bytes plus 32, 20, 16 and 32 for the low four bits of the fifth |
| `Params.AllPresent` | internal/uapi/marshal.go:104-154 | With all four sections they begin at bytes 8, 40, 60 and 76 of 108 |
| `Params.RoundTrip` | internal/uapi/marshal.go:104-201 | Unmarshalling what was marshalled restores types and every section present and leaves the others alone, whatever follows |
| `Params.PadToMinimum` | internal/ctrl/control.go:163-172 | The padded buffer has 128 bytes, declares 128, still holds the block and is zero behind it |
| `Params.PaddedRoundTrip` | internal/ctrl/control.go:163-172 | The padded buffer decodes to the same types and sections |
| `Params.DeclaredLengthNotEnforced` | internal/uapi/marshal.go:162-178 | A block that declares eight bytes is accepted with a section read beyond them |
| `Params.ReadsBeyondExactlyWhen` | internal/uapi/marshal.go:162-198 | Sections are read beyond the declared length exactly when the sections' total passes it |
| `Params.SetTypeBit` | internal/uapi/structs.go:154-191 | Setting a section's type bit turns on that section and no other |
| `Geometry.SizeToShift` | internal/ctrl/control.go:374-380 | The exponent of the largest power of two not above the size |
| `Geometry.ShiftExactlyPowers` | internal/ctrl/control.go:144-147 | The shift gives the block size back exactly when that is a power of two |
| `Geometry.AdmittedExactly` | internal/ctrl/control.go:148-150 | The limits in sectors admit exactly the requests of at most the maximum I/O size in bytes that end on the device |
| `Geometry.ParamsBuffer` | internal/ctrl/control.go:140-172 | The 128 bytes given to the kernel, all of them: 128 and type 1, the shift as logical, physical and minimum size, the largest request modulo 2^32 at byte 16, no chunk, the size in blocks at byte 24, and zeros |
| `Geometry.AdmittedFits` | internal/ctrl/control.go:148-150 | A request within the advertised limits has offset and length without wrap-around, inside the backend and at most the maximum I/O size |
| `Geometry.AdmittedIsServed` | internal/queue/runner.go:536-556 | It never panics, is never cut short, fails only as a write of no sectors at the very end, and with block size 512 commits the bytes it moved |
| `Geometry.CommitsItsLength` | internal/queue/runner.go:603-603 | Its result equals its length exactly for block size 512 or no sectors |
| `Geometry.CommitExact` | internal/queue/runner.go:603-603 | The 32-bit result is the sector count times 512 exactly below 2^22 sectors |
| `Geometry.LimitedQueueIsADisk` | examples/ublk-mem/main.go:67-67 | With the maximum at 64 KB every run whose requests respect the limits is an atomic disk serving the requests issued, per tag in issue order |
| `Geometry.PageRounded` | internal/queue/runner.go:643-650 | The mapped size is the least multiple of the page size that holds the descriptors |
| `Geometry.RegionsDisjoint` | internal/queue/runner.go:652-654 | The regions of different queues do not overlap |
| `BufferPool.StepInv` | internal/queue/pool.go:38-68 | Gets, puts, re-slicings and collections keep exact capacities and one holder per array |
| `BufferPool.RunInv` | internal/queue/pool.go:38-68 | So over any run every pool holds only its capacity, and live buffers are distinct and never also pooled |
| `BufferPool.GetGives` | internal/queue/pool.go:38-49 | Panics exactly above 1 MB; otherwise a slice of the size asked for, on the least standard capacity, that nobody else holds |
| `BufferPool.PoolsByNumber` | internal/queue/pool.go:38-68 | The capacity taken is the least of 128, 256, 512 and 1024 KB that holds the size, and exactly those four go back to pools |
| `BufferPool.PutPools` | internal/queue/pool.go:53-68 | The whole buffer lands in the pool of its capacity or is dropped, and no caller keeps it |
| `BufferPool.RunArrays` | internal/queue/pool.go:38-68 | An array keeps its size through every slice, pool and holder of any run |
| `BufferPool.ReturnsHome` | internal/queue/pool.go:53-68 | Put back after any run, a buffer returns to the pool it came from exactly when its slice still begins where it did |
| `BufferPool.GlobalPool.GetBuffer` | internal/queue/pool.go:38-49 | The switch over the pools is the get step, whichever buffer sync.Pool picks |
| `BufferPool.GlobalPool.PutBuffer` | internal/queue/pool.go:53-68 | The switch on the capacity is the put step |
| `Commands.StartAfterFetches` | backend.go:280-284 | When START_DEV is issued every queue and tag has had exactly one fetch from a runner still live |
| `Commands.AtMostOnce` | backend.go:434-501 | No runner is created or closed twice, no tag fetched twice by a runner, and DEL_DEV succeeds at most once |
| `Commands.NothingAfterDeletion` | backend.go:575-631 | Nothing is asked of the kernel after a successful DEL_DEV |
| `Lifecycle.Kernel.StartRunner` | internal/queue/runner.go:204-240 | Starting a runner fetches each of its tags once, or stops at the first failure, whose fetch may have been published |
| `Lifecycle.CreateAndServe` | backend.go:146-307 | Succeeds exactly when every outcome along the way is good, with one primed runner per queue; on failure every runner created is closed, and deletion is tried exactly when the device was added and its character device not refused |
| `Lifecycle.RefusedOpen` | backend.go:223-234 | The concrete outcomes that leave a device registered with no deletion tried |
| `Lifecycle.Create` | backend.go:326-391 | Succeeds exactly when controller, ADD_DEV and SET_PARAMS do, with a device in state created; otherwise deletion is tried if it was added |
| `Lifecycle.Device.Start` | backend.go:396-514 | Refused without effect when closed or started; otherwise succeeds exactly when opening, every runner's creation and fetches, the controller and START_DEV do, started with every queue served, and leaves no runner if not |
| `Lifecycle.Device.Stop` | backend.go:519-571 | Refused without effect when closed or not started; otherwise the context is cancelled and no runner is left, STOP_DEV is asked for last, and the state is created if both calls succeed and stopped if not |
| `Lifecycle.FailedStop` | backend.go:519-571 | A running device whose STOP_DEV fails is left started without runners, and Start refuses it |
| `Lifecycle.Device.Close` | backend.go:575-631 | No runner is left; with a controller the log ends in STOP_DEV and DEL_DEV; closed exactly when there is a controller and the deletion succeeds; without effect when closed already |
| `Lifecycle.RunningServes` | backend.go:648-672 | In every state reached, running means one live, fully primed runner per queue |
| `Lifecycle.IdleHasNoRunners` | backend.go:648-672 | Created or closed means no runners |
| `Lifecycle.ClosedExactlyWhenDeleted` | backend.go:575-631 | Closed exactly when the log's last event is a successful DEL_DEV |

## Left out

- System calls, memory mapping, file descriptors, CPU affinity, sleeps and retries: nondeterministic outcomes only.
- Hardware memory ordering: publication of entries and completions is taken as sequentially consistent.
- The control path of the ring (submitAndWait, submitToRing, tryGetCompletion, submitOnlyCmd, the batch stub): it tracks another tail and queue rings never use it.
- Sixty-four-bit overflow: metric counters and backend sums are unbounded.
- Floating point: percentiles use exact rationals, rounded down where the code converts to an integer.
- Percentiles read, and Reset called, while recordings are under way.
- Zoned operations and NEED_GET_DATA: the code answers both with an error, and so does the model.
- Locks of the memory backend's methods: the methods in Backends run alone; their concurrency is ShardLocks and ConcurrentDevice.
- Closing the memory backend while calls are running, and its WriteZeroes, which is Discard.
- Ownership of the shared character-device descriptor, the context tree below a runner, and restarting a device made by CreateAndServe, whose options are nil.
- Queue counts: with none configured a device runs one runner per CPU while ADD_DEV announces one queue; the lifecycle takes the number of runners as given and non-negative.
- Agreement of descriptor offsets and sector units with a real kernel for block sizes other than 512.
- A misbehaving kernel: it completes only commands it holds, once each, and writes from a command's address on at most one buffer or the length of a write, whichever is more; of that, bytes past the tag memory are not modelled.
- Udev retries when opening the character device are one open outcome, and the list of runners grows where the code fills an array of nils.
- The later length tests of unmarshalCtrlDevInfo, which cannot fail once the first has passed.
- Errors, logging, size parsing, the stub runner, getters, rates and scripts: easy or input and output only.

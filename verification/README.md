# Plots from hash to file, verified

This project models a Proof-of-Capacity plotter and proves that what it leaves on disk is what it should.
The plotter computes, for each nonce, a backward chain of 8192 Shabal-256 hashes, masks it with a last
hash, and stores the plots of many nonces scoop by scoop (the PoC2 layout). A simple form of the
computation runs on the CPU, one nonce at a time over bytes. The fast form is an OpenCL kernel over
32-bit words, sixteen nonces interleaved. A dispatcher, a hasher thread and one writer thread per drive
carry the hashed nonces to files.

The main result joins both halves: in every interleaving of the threads, with writes that fail any
number of times, a file that gets its final name holds, byte for byte, the scoop-major transpose of the
plots that the CPU would compute for its nonces, if and only if no stop cut off a write to it with rows
missing. Beside it: every run can be completed from every unstopped state, and completion is exact.

## How the model is built

* `Words`, `Shabal`, `ShabalPermutation`, `ShabalRounds`, `ShabalContext`: the streaming hash. Bytes and
  words are bounded naturals with explicit wrap-around; plot ids and nonces are 64-bit vectors.
* `Bits`: what the operations on words and machine words mean bit by bit and as numbers.
* `CpuPlotter`: the reference plot, in place on a byte buffer. `WordPlot`: the same computation on words,
  and why both agree. `Layout`: the interleaved addresses.
* `Kernel`, `GpuPlotter`: the kernel and the host code on one device buffer. `Schedule`, `KernelProgram`:
  the kernel as single loads and stores, so that work items may interleave; `InterleavedPlot`: all launches of a plot.
* `Transposition`, `PlotFile`, `WriterWorker`, `Tasks`, `Hasher`: the threads' work on one task.
  Files are byte sequences with a cursor; seek, read, write, open and preallocation may fail at any time, a
  failed write may be partial, and the stop flag may rise at any time.
* `BlockAllocator`, `RangeAllocator`, `Queue`, `Dispatcher`: the remaining parts of the host program.
  `RangePlacement`: where the allocated ranges lie.
* `Pipeline`: all threads as one labelled state machine whose steps are described by the very contracts of
  the methods above: a hash step leaves a block as `Hasher.FillBlock` does, a write step a file as
  `WriterWorker.TryWrite` does, a dispatch cuts tasks as `Tasks.TaskCursor.NextHasherTask` does.
  `PipelineTotals`, `WriterProgress`, `PipelineSafety` and `PipelineContents` prove what every step keeps;
  `EndToEnd`, `Progress`, `Possible`, `Completion`, `RoundRobin`, `Interruption` and `DirectIo` are about whole runs.
  `Workers` and `Allocation` run the methods of the threads and of the block allocator in the states of a run and show
  that they take its steps, as `Dispatcher` does for the dispatcher.
* `Verifier`, `RoundTrip`: checking files, and the way from writer to verifier. `RunPlan` leads from the
  allocated ranges to the files of a run.

`hide` statements keep definitions out of proofs that do not need them.

## Where the code is not what one might expect

* Block addresses and the advance of `host_buff` are signed 32-bit products. Blocks of more than 32768 nonces, and blocks
  of several work sizes of 8192 nonces or more, are addressed wrongly; the program checks neither
  (`Hasher.BoundsAreExact`, with the first failing inputs in `Layout.FirstWrongAddress` and `Hasher.FirstWrongAdvance`).
  The default buffer size is always right for work sizes up to 32768. Both bounds are part of `Pipeline.Ready`.
* Steps for which `plot` masks are exactly the divisors of 8192 and, because of the correction at the last launch, those
  of 8193 (`GpuPlotter.GoodSteps`). For other steps the plots stay unmasked. That the step is good is part of
  `Pipeline.Ready`.
* `--verify` uses its step option both for the gap between windows and for its own device. With any other step than 0
  or those divisors it compares with unmasked plots and rejects correct files, unless every final hash looked at is zero
  (`Verifier.WrittenFileShowsIff`, `Verifier.StepsThatMask`).
* `perform_write_plot` returns true when a stop cuts it off, so an incomplete file can get its final name.
  `Interruption` has the run; `EndToEnd.RenamedFileIsThePlot` has the exact condition, write by write.
* The size check of the verifier is written `nonces & 7 != nonces`, in which the comparison binds tighter. It
  accepts even counts, and of the odd ones 7 (`Verifier.HeaderAccepts`).
* A temporary file left by an earlier run that is longer than needed keeps its tail: the renamed file is right
  in all slots but fails the size check (`RoundTrip.RenamedFileIsAccepted`).
* The dispatcher's counters are 32 bits wide. From 2^31 nonces on they never meet the total: all files get finished, but
  the dispatcher does not see it (`EndToEnd.CountersSeeTheEnd`, `Completion.EveryRunCanComplete`).
* `size_` of a queue is raised after the lock is released. The dispatcher can therefore see a writer's queue as
  empty when it holds one task, or as holding 2^64 - 1 when it is empty. The pipeline models the counter apart.
* New ranges ascend and are disjoint, but the first look at a later drive may move the next nonce and so leave a gap
  (`RangePlacement.GapBetweenDrives`; `ContiguousIff` and `AlwaysContiguousIff` have the exact conditions).
* They may meet existing plots in two ways: a drive is filled before the plots of later drives are looked at, and only
  plots that start in the same 2^32 nonces as the run count at all, so that a run that crosses into the next 2^32
  nonces, or a plot that does, is not noticed even on a drive that was looked at (`RangePlacement.MeetsPlotOfLaterDrive`,
  `MeetsPlotOfNextWindow`; `MeetsIff`, `RunIsOneRange` and `AlwaysKeepsOffIff` have the exact conditions).
* A file of INT32_MAX nonces or more is not cut smaller but given up. With a cap of that size, or one of 0, drives are
  passed over although they have room (`RangePlacement.PassesOver`, `AlwaysMaximalIff`).

Nonce numbers of ranges are unbounded; they coincide with the program's 64-bit ones while sums stay below 2^64.
Where they enter a plot they are reduced modulo 2^64. Signed 32-bit overflow is modelled as wrapping round.

## Model

| member | source | states |
|---|---|---|
| `EndToEnd.RenamedFileIsThePlot` | src/worker_writer.cpp:52-119 | in every run, after any number of failed attempts and whatever the file held before, a renamed file of N nonces from sn was renamed once, and it holds at every (s*N+k)*64+b byte 64*s+b of the CPU plot of sn+k, a number that Bits.NumberOfU64 and CpuPlotter.SeedDigits tie to the seed, if and only if no write to it was cut off by a stop with rows missing from the cut on; for block sizes within the exact 32-bit bounds |
| `EndToEnd.RenamedByteIsRight` | src/worker_writer.cpp:52-119 | in particular every byte is right in a run in which no write is cut off |
| `EndToEnd.SpoiledIff` | src/worker_writer.cpp:56-71 | over any run a file is spoiled exactly by a write that a stop cut off while some slot from the cut on did not hold its row |
| `EndToEnd.RunKeeps` | src/plotter.cpp:222-291 | accounting, order, and memory and disk contents (up to spoiled files) hold in every state of every run, also stopped ones |
| `EndToEnd.FinishedMeansAllRenamed` | src/plotter.cpp:244-247 | without a stop, when the 32-bit finished count meets the total, every file is completely written, byte for byte the plot, and renamed exactly once |
| `EndToEnd.CountersBounded` | src/plotter.cpp:226-278 | finished <= dispatched <= total in every state |
| `EndToEnd.DispatchedAndLeft` | src/plotter.cpp:276 | in every state of every run, what was dispatched and what the tasks of all writers have left add up to the total |
| `EndToEnd.TasksAscend` | src/worker_writer.h:40-56 | what is pending for a writer is in non-decreasing file order, ascending and without overlap within a file |
| `EndToEnd.FileSwitchClosesFinishedFile` | src/worker_writer.cpp:94-97 | a writer that works on a file has completed and renamed all its earlier files, so a switch closes a finished file |
| `Allocation.AllocationFitsBudget` | src/plotter.cpp:189-191 | for the allocator that holds the blocks of a state: with fewer than max_flying_tasks in flight and no free block its total leaves room for one more, so it never refuses for the budget |
| `Allocation.AllocateForTask` | src/plotter.cpp:266-276 | asking for a block in any sound state: a refusal is the step that waits, a block is one that the dispatch step may take, and the allocator holds the blocks of the next state, also when the writer has nothing left and the block goes back at once; with the flight limit within the budget it is only refused for want of memory |
| `Allocation.NewAllocator` | src/plotter.cpp:73 | a new allocator holds the blocks of the state that a run starts from |
| `Allocation.RetainReported` | src/plotter.cpp:224-228 | giving back the block of a report: the block is in use, and the allocator holds the blocks of the next state |
| `Interruption.TornWriteIsHarmlessIff` | src/worker_writer.cpp:56-71 | a write cut off by a stop at a given scoop and nonce leaves the file as booked exactly if every slot from there on already held its row before the write; always, if all scoops were done |
| `Interruption.TornWriteRenamesAnything` | src/worker_writer.cpp:56-71 | for any contents up to full length: a concrete run in which a stop at the start of the write renames a file that holds just what opening, preallocation and failed attempts left |
| `Interruption.TornWriteRenamesEmptyFile` | src/worker_writer.cpp:56-71 | in particular a file of no bytes |
| `Interruption.TornWriteRenamesWrongFile` | src/worker_writer.cpp:56-71 | in particular a preallocated file of full length that is not the plot |
| `PipelineTotals.CountAfter` | src/plotter.cpp:222-291 | every step changes the number of tasks, of nonces, and of tasks on a given block over all places together as it should: a dispatch adds one task, a retirement removes one, all else only moves tasks |
| `PipelineSafety.AccountedStep` | src/plotter.cpp:222-291 | each used block carries exactly one task in flight and no other block any; on_going_task is their number; finished plus in-flight nonces = dispatched = nonces handed out; free and used blocks are disjoint and at most max_flying_tasks |
| `PipelineSafety.OrderedStep` | src/worker_writer.cpp:79-132 | every step keeps, for every writer, files that agree with what was handed out and written, pending tasks that lie end to end from the written to the handed position, and the lag of its queue counter |
| `PipelineContents.ContentsStep` | src/worker_writer.cpp:52-132 | every step keeps in memory the finished nonces of each hashed task, and on disk the reference rows of all submitted nonces of exactly the files that no cut-off write has spoiled |
| `PipelineContents.CutWriteGood` | src/worker_writer.cpp:56-71 | what a cut-off write leaves is right exactly if the slots from the cut on held their rows before |
| `PipelineContents.HashedBlockIsApart` | src/worker_hasher.cpp:29-42 | the block that the hasher fills is never the block of a task that a writer holds |
| `PipelineContents.AttemptKeepsGood` | src/worker_writer.cpp:52-72 | an attempt at the next piece, failed or not, leaves all earlier nonces of the file intact |
| `PipelineContents.AttemptAddsPiece` | src/worker_writer.cpp:52-72 | a completed attempt adds the reference rows of its nonces |
| `WriterProgress.HandOutKeeps` | src/worker_writer.h:40-56 | the next piece starts exactly where the last ended, lies in one file and is at most a work size; none is left only when all files are handed out |
| `WriterProgress.CommitKeeps` | src/task_writer.h:33-36 | submitting the piece at the written position makes submitted_nonces_ and the rename count right for every file |
| `WriterProgress.ContiguousAscends` | src/task_writer.h:21-29 | pieces that lie end to end never overlap and ascend |
| `WriterProgress.EarlierFilesDone` | src/worker_writer.cpp:94-97 | files before the one being written are complete |
| `Progress.MeasureStep` | src/plotter.cpp:222-291 | eight times the undispatched nonces plus the stages left strictly falls in every productive step, and is unchanged by waiting steps |
| `Progress.WorkIsBounded` | src/plotter.cpp:222-291 | in any interleaving the number of productive steps is at most eight per planned nonce |
| `Completion.SomeoneCanStep` | src/plotter.cpp:222-291 | in every unstopped state with a task in flight some thread has a productive step |
| `Completion.QuietDispatch` | src/plotter.cpp:252-270 | when nothing is in flight and not all is finished, the selected writer can be dispatched from |
| `Completion.PassedOver` | src/plotter.cpp:258-276 | a dispatch from a drive without work brings a drive with work one nearer in the round robin |
| `Completion.EveryRunCanComplete` | src/plotter.cpp:222-291 | up to any unstopped state every run can be continued to a run that ends with all nonces finished and every file complete, correct and renamed once; the dispatcher sees that end exactly if the total is below 2^31 |
| `RoundRobin.WaitingStep` | src/plotter.cpp:255-276 | in every state a waiting step of the dispatcher brings a drive with work and an empty queue exactly one nearer, and other waiting steps leave the distance alone |
| `RoundRobin.StretchIsShort` | src/plotter.cpp:255-276 | in every run, between two productive steps the dispatcher passes over fewer writers than there are while some drive has work and an empty queue |
| `RoundRobin.WillingIsServed` | src/plotter.cpp:261-278 | such a drive gets its task when it is selected, at most one task waits for the hasher, fewer than the limit are in flight, and there is a block |
| `RoundRobin.HasherQueueIsShort` | src/plotter.cpp:255-256 | in every run at most two tasks wait for the hasher |
| `RoundRobin.WillingOrBusy` | src/plotter.cpp:222-291 | in every unstopped unfinished state there is such a drive, or another thread has a productive step |
| `Dispatcher.TryDispatch` | src/plotter.cpp:244-290 | the guards, the cursor that always selects a writer, the block and the next task: exactly the one step that the outcome names |
| `Dispatcher.Turn` | src/plotter.cpp:222-291 | one turn of the dispatcher loop is a retirement, if a report was popped, followed by at most one dispatch step; it ends as finished exactly at the total |
| `Workers.AttemptIsSteps` | src/worker_writer.cpp:98-118 | whatever an attempt of a writer leaves in its file is one, two or three enabled steps of the pipeline, which leave the same file, task, rename count and stop flag; a stop that cuts it off is the step that books a torn write on the file as opened |
| `Workers.WriterTurn` | src/worker_writer.cpp:98-118 | one pass of the retry loop, in every sound state in which the writer writes and on objects that hold what the state says: its preconditions are met, what it does are steps of the pipeline, after which it may report the task or, stopped, give up, and a write fails only after a failed operation on the file |
| `Workers.HasherTurn` | src/worker_hasher.cpp:25-46 | the chunk loop, in every sound state in which the hasher works: its preconditions are met, and it is the step that finishes the task, after which it may raise the counter |
| `Possible.BlockCanHold` | src/worker_hasher.cpp:29-42 | whatever task it is given, a block content with all its finished nonces exists |
| `Possible.WriteCanSucceed` | src/worker_writer.cpp:52-72 | whatever the file holds, a content that a complete write may leave exists |
| `WriterWorker.WriteChunk` | src/worker_writer.cpp:64-68 | one chunk fills the slots of its nonces in one scoop, and even a failed write changes no other slot |
| `WriterWorker.WriteScoop` | src/worker_writer.cpp:57-69 | all chunks of one scoop, or, when a stop cuts it short, how many nonces it has got to: their slots are in place and all later ones untouched |
| `WriterWorker.PerformWrite` | src/worker_writer.cpp:52-72 | slots of other nonces survive; on success every slot before the place where the stop was first seen holds the row of its block and every slot from there on is untouched; without a stop that place is the end; it fails if and only if a seek or a write on the file has failed |
| `WriterWorker.TryWrite` | src/worker_writer.cpp:98-118 | one pass of the retry loop: a failure books nothing and closes the file; a success books the nonces and renames exactly when the file is complete; what was written is told relative to the file after opening and preallocating; it fails only after a failed operation on the file, and without a stop exactly then |
| `WriterWorker.RowOfChunk` | src/worker_writer.cpp:28-50 | part j of a transposed chunk is the 64-byte row of nonce j |
| `PlotFile.SlotsApart` | src/worker_writer.cpp:57 | distinct slots of a file do not overlap |
| `PlotFile.SlotsTile` | src/worker_writer.cpp:57 | the slots of N nonces cover [0, N*262144) |
| `PlotFile.OtherSlotsKept` | src/worker_writer.cpp:57-68 | writing a run of slots of one scoop keeps every other slot |
| `PlotFile.File.Write` | src/common/file.h:89-108 | a write that succeeds puts the data at the position; one that fails may have written a part, and nothing elsewhere |
| `PlotFile.File.Open` | src/common/file.h:110-137 | opening and preallocating may fail, keep what is there, and extend a file at most to the wanted length |
| `DirectIo.RunAligned` | src/task_writer.h:21-29 | in every run with files and a work size that are multiples of 8 nonces, so is every task and its place in its file |
| `DirectIo.WritesAligned` | src/worker_writer.cpp:56-69 | then every seek offset and write length is a multiple of 512 bytes |
| `Tasks.WriterTask.NextPart` | src/task_writer.h:21-29 | hands out min(gws, left) nonces from where the last piece ended, -1 when none is left |
| `Tasks.WriterTask.SubmitNonces` | src/task_writer.h:33-36 | adds the nonces and reports whether the file is complete |
| `Tasks.TaskCursor.PushTask` | src/worker_writer.h:34 | a new file goes behind the others of its drive |
| `Tasks.TaskCursor.NextHasherTask` | src/worker_writer.h:40-56 | cuts the next piece, as the cut function on the abstract tasks says, and touches no other task |
| `Tasks.NextPieceIs` | src/worker_writer.h:40-56 | the cursor passes exactly the exhausted files, and the piece comes from the next other one |
| `Hasher.FillBlock` | src/worker_hasher.cpp:29-42 | with 32-bit addresses and a 32-bit advance of host_buff, within the exact bounds: after the chunk loop the block holds the finished nonces start, ..., start+n-1 through one addressing of the whole block; every full-size read-back stays inside the block |
| `Hasher.HashChunk` | src/worker_hasher.cpp:33-41 | one chunk extends the finished nonces of the block |
| `Hasher.ChunkExtends` | src/worker_hasher.cpp:32-42 | a chunk at a multiple of 16 nonces is glued seamlessly: earlier nonces keep their words, later ones are addressed across the block |
| `Hasher.BoundsAreExact` | src/worker_hasher.cpp:29-42 | for every task of up to parts work sizes all 32-bit addresses and the advance of host_buff are exact if and only if the block has at most 32768 nonces and either is one work size or the work size is below 8192 |
| `Hasher.FirstWrongAdvance` | src/worker_hasher.cpp:41 | with work size 8192 and two parts the advance is -2^31 |
| `Hasher.DefaultPartsFit` | src/plotter.cpp:185-188 | the default buffer size is within the bounds for every work size up to 32768 |
| `Hasher.BufferSizeIs` | src/plotter.cpp:185-188 | of the buffers option the lowest three bits count; the default is two parts exactly if two are addressed rightly, and one otherwise |
| `Hasher.RowIsShown` | src/worker_writer.cpp:28-50 | each row of a plotted nonce is the row of the CPU plot, masked or unmasked |
| `Hasher.RowIsReference` | src/worker_writer.cpp:28-50 | each row of a filled block is the 64 bytes of the CPU plot of its nonce |
| `GpuPlotter.Device.Plot` | src/poc/gpu_plotter.h:61-84 | for every step the chains of all requested nonces are complete, and masked exactly if the step divides 8192 or 8193, whatever the device buffer held; words of other nonces, and the host block outside the read-back, are unchanged |
| `GpuPlotter.Device.RunLaunch` | src/poc/gpu_plotter.h:71-75 | one launch takes every nonce from its start hash to its end |
| `GpuPlotter.LaunchesCoverOnce` | src/poc/gpu_plotter.h:70-76 | the launches compute hashes 8192 down to 0 once each, in order, and exactly the last one masks |
| `GpuPlotter.GoodSteps` | src/poc/gpu_plotter.h:70-76 | some launch masks the plots if and only if the step divides 8192 or 8193 |
| `GpuPlotter.DefaultLaunches` | src/poc/gpu_plotter.h:26-76 | without a step option a plot is 256 launches of 32 hashes each, of which the last one masks |
| `GpuPlotter.FinishedBufferIsUnique` | src/poc/gpu_plotter.h:70-78 | finished nonces and unchanged other words fix the buffer, so all good steps leave the buffer of the single launch (8192, -1) |
| `GpuPlotter.WorkSizeInSixteens` | src/poc/gpu_plotter.h:30-42 | on a large enough device every requested size gives a multiple of 16 if and only if the local size is one; the work size is at least 16 |
| `GpuPlotter.WorkSizeFits` | src/poc/gpu_plotter.h:36-41 | the buffer of the chosen work size fits the memory of the device exactly if sixteen plots do |
| `GpuPlotter.WorkSizeIsLargest` | src/poc/gpu_plotter.h:30-41 | the chosen work size is the largest multiple of the local size that is wanted and fits, and 16 if that is smaller |
| `Kernel.WorkItem` | kernel/kernel.h:334-448 | a work item grows the chain of its nonce from start to end through 32-bit addresses, masks it exactly when end is -1, and changes no word of another nonce |
| `Kernel.HashTail` | kernel/kernel.h:342-423 | one pass yields the digest of the (capped) chain so far |
| `Kernel.LastBlock` | kernel/kernel.h:387-414 | the three hand-written padding cases are the padded rest of the message |
| `Kernel.ReadBlocks` | kernel/kernel.h:362-386 | the block loop absorbs the interleaved words in chain order |
| `Kernel.DeviceStartsLikeHost` | kernel/kernel.h:253-272 | the initial values in the kernel are those of the host |
| `Kernel.MaskNonce` | kernel/kernel.h:436-447 | the final loop masks every word of the nonce once |
| `Kernel.DigestByBlocks` | kernel/kernel.h:362-423 | full blocks, the padded block and the closing rounds make the digest of the message |
| `Kernel.MessageRest` | kernel/kernel.h:342-345 | what is left after the full blocks is nothing, a seed, or a hash and a seed, by cap and parity |
| `Layout.AddressDecodes` | kernel/kernel.h:328-332 | Address is injective and stays in the buffer |
| `Layout.AddressCovers` | kernel/kernel.h:328-332 | Address reaches every word of a buffer for a multiple of 16 nonces |
| `Layout.AddressFitsInt32` | kernel/kernel.h:328-332 | the 32-bit address of every word of a nonce is the true one exactly when nonce < 32768 |
| `Layout.FirstWrongAddress` | src/worker_writer.cpp:20-24 | the first word of nonce 32768 is looked for 2^31 words before the block |
| `Layout.ViewUpdate` | kernel/kernel.h:425-433 | a store changes one word of one nonce |
| `Schedule.ScheduleIndependence` | kernel/kernel.h:334-448 | any interleaving of the reads and writes of programs on disjoint words leaves the same memory |
| `KernelProgram.ItemLeaves` | kernel/kernel.h:334-448 | the work item, read as single loads and stores, touches only words of its nonce and leaves it finished |
| `KernelProgram.AnyInterleavingOfALaunch` | kernel/kernel.h:334-448 | every interleaving of the work items of a launch finishes all its nonces |
| `KernelProgram.LaunchCanFinish` | kernel/kernel.h:334-448 | there is such an interleaving for every launch: the work items one after the other, each of which ends |
| `InterleavedPlot.InterleavedPlotFinishes` | src/poc/gpu_plotter.h:70-76 | for every good step, launches whose work items interleave freely finish all nonces and touch no other word |
| `InterleavedPlot.InterleavedPlotExists` | src/poc/gpu_plotter.h:70-76 | for every good step and every buffer there are complete interleavings of all launches, one after the other |
| `Transposition.Transpose` | src/worker_writer.cpp:28-50 | fills the write buffer with the scoop rows of the nonces, in order, and no further |
| `Transposition.GpuEqualsCpu` | src/worker_writer.cpp:28-50 | a finished nonce, read through the mirrored odd hash, gives byte 64*s+b of the CPU plot |
| `Transposition.UnmaskedEqualsCpu` | src/worker_writer.cpp:28-50 | an unmasked nonce gives the same byte before the final mask |
| `Transposition.MaskShows` | src/poc/cpu_plotter.h:37-39 | masked and unmasked scoops agree exactly if the final hash is all zeros |
| `WordPlot.ChainAgrees` | kernel/kernel.h:341-435 | the chain over words is the chain over bytes |
| `WordPlot.DigestAgrees` | kernel/kernel.h:362-423 | the digest over words is Shabal-256 over bytes |
| `WordPlot.SeedAgrees` | kernel/kernel.h:340 | the byte-reversed id and nonce of the device are the seed bytes of the host |
| `WordPlot.MaskAgrees` | kernel/kernel.h:436-447 | masking words is masking bytes |
| `CpuPlotter.Plotter.Plot` | src/poc/cpu_plotter.h:19-47 | the buffer ends up holding the specified plot of this id and nonce, whatever it held |
| `CpuPlotter.SeedDigits` | src/poc/cpu_plotter.h:20-21 | the seed is the digits of the plot id and then those of the nonce to the base 256, each most significant first |
| `CpuPlotter.SeedsDiffer` | src/poc/cpu_plotter.h:20-21 | two nonces share a seed exactly if they agree modulo 2^64, so no two nonces of a file below 2^64 do |
| `CpuPlotter.Plotter.HashChain` | src/poc/cpu_plotter.h:26-33 | the backward loop builds the capped hash chain in front of the seed |
| `CpuPlotter.Plotter.MaskAll` | src/poc/cpu_plotter.h:37-39 | every byte is masked with the final hash, once |
| `CpuPlotter.Plotter.Shuffle` | src/poc/cpu_plotter.h:41-46 | odd hashes are exchanged end for end |
| `CpuPlotter.ShuffleIsInvolution` | src/poc/cpu_plotter.h:41-46 | shuffling twice changes nothing |
| `Words.EndianSwapIsHton` | kernel/kernel.h:321-326 | the rotations and selections of the device reverse bytes as the host does |
| `Words.NonceAtSum` | src/worker_hasher.cpp:39-40 | a nonce reached in several wrapping additions is the nonce reached in one |
| `Bits.NumberOfU64` | src/worker_hasher.cpp:40 | the machine word for nonce n stands for the number n modulo 2^64 |
| `Bits.NumberOfNonceAt` | kernel/kernel.h:340 | start nonce plus work item is the sum of their numbers modulo 2^64 |
| `Bits.U64SameIff` | src/worker_hasher.cpp:40 | two nonces share a machine word exactly if they agree modulo 2^64 |
| `Bits.HtonBytes` | src/poc/plotter_base.h:19-29 | storing the reversed machine word puts the base-256 digits of its number in memory, most significant first |
| `Bits.HalvesInMemory` | kernel/kernel.h:334-345 | as two 32-bit words in memory a machine word is its lower half and then its upper half |
| `Bits.WordBits` | contrib/shabal/sph_shabal.cpp:259-265 | bit by bit: exclusive or, complement, and conjunction with a complement |
| `Bits.RotationBits` | contrib/shabal/sph_shabal.cpp:259-265 | rotating left by 1, 15 or 17 moves bit k to bit k + 1, k + 15 or k + 17 modulo 32 |
| `Bits.BitsDetermine` | contrib/shabal/sph_shabal.cpp:259-265 | a word is determined by its bits, so that these laws fix the operations |
| `Bits.SumsWrap` | contrib/shabal/sph_shabal.cpp:191-207 | sums and differences of words are those of the integers modulo 2^32 |
| `ShabalContext.Context.Update` | contrib/shabal/sph_shabal.cpp:536-584 | absorbing any chunk appends it to what has been absorbed, whatever the split, with ptr < 64 |
| `ShabalContext.Context.Close` | contrib/shabal/sph_shabal.cpp:586-657 | writes Shabal-256 of everything absorbed and returns the context to its initial state |
| `ShabalContext.Context.Init` | contrib/shabal/sph_shabal.cpp:527-533 | starts with nothing absorbed |
| `ShabalContext.Context.FeedAll` | contrib/shabal/sph_shabal.cpp:561-581 | the loop splits a chunk at block ends without loss |
| `Shabal.Shabal256ByTail` | contrib/shabal/sph_shabal.cpp:600-616 | the digest is the closing rounds on the padded rest after absorbing the full blocks |
| `Shabal.AbsorbPrefix` | contrib/shabal/sph_shabal.cpp:561-581 | absorbing depends only on the blocks absorbed |
| `Shabal.CounterCountsBlocks` | contrib/shabal/sph_shabal.cpp:382-385 | after n blocks W is n+1 modulo 2^64, across the carry of the low word |
| `ShabalPermutation.PermStep0` | contrib/shabal/sph_shabal.cpp:267-284 | the first unrolled block of 16 is steps 0 to 15 of the indexed loop |
| `ShabalPermutation.PermStep1` | contrib/shabal/sph_shabal.cpp:286-303 | the second is steps 16 to 31 |
| `ShabalPermutation.PermStep2` | contrib/shabal/sph_shabal.cpp:305-322 | the third is steps 32 to 47 |
| `ShabalPermutation.AddAll` | contrib/shabal/sph_shabal.cpp:344-379 | the 36 descending additions |
| `ShabalPermutation.AddsDownIsAddsC` | contrib/shabal/sph_shabal.cpp:344-379 | descending and ascending order of the additions agree |
| `ShabalPermutation.ApplyPUnrolled` | contrib/shabal/sph_shabal.cpp:324-380 | the unrolled permutation is the indexed one |
| `ShabalPermutation.UnStepsSteps` | contrib/shabal/sph_shabal.cpp:259-265 | undoing the steps in reverse restores A and B |
| `ShabalPermutation.PermutationIsBijective` | contrib/shabal/sph_shabal.cpp:324-380 | for fixed C and M the permutation has an explicit two-sided inverse on (A, B) |
| `ShabalPermutation.RoundIsBijective` | contrib/shabal/sph_shabal.cpp:572-578 | for each message block the whole block step has an explicit two-sided inverse on (A, B, C, W) |
| `ShabalRounds.MessageRound` | kernel/kernel.h:380-385 | the sequence of macros for a block is one compression |
| `ShabalRounds.ClosingRounds` | kernel/kernel.h:416-423 | the padded block and three blank rounds are the closing |
| `BlockAllocator.BlockAllocator.Allocate` | src/common/paged_block.h:80-111 | returns a free block of that length if there is one, else new memory within the budget, else the dummy, and says exactly when; never a block in use; the books stay consistent |
| `BlockAllocator.BlockAllocator.Retain` | src/common/paged_block.h:113-117 | a used block becomes free, and nothing else changes |
| `BlockAllocator.BlockAllocator.HeldApart` | src/common/paged_block.h:80-117 | blocks held under different addresses never overlap |
| `BlockAllocator.BlockAllocator.BudgetByCount` | src/common/paged_block.h:90-97 | with blocks of one length the total is that length times the number of free and used ones, which decides about the budget |
| `Queue.Queue.Append` | src/common/queue.h:39-43 | the locked half of push: first in, first out, and the counter is not raised yet |
| `Queue.Queue.Count` | src/common/queue.h:44 | the other half of push |
| `Queue.Queue.Pop` | src/common/queue.h:48-81 | returns the oldest item and counts it off; nothing after a stop or when empty |
| `Queue.CounterTells` | src/common/queue.h:83 | what a reader of size_ learns: the length without a push under way, and 2^64-1 or one too few with one |
| `RangeAllocator.RangeAllocator.Run` | src/plotter.cpp:111-163 | both passes leave exactly the plan of RangeAllocator.Allocated: first files in units of 64, then of 8, over the drives in order |
| `RangeAllocator.RangeAllocator.Scan` | src/plotter.cpp:115-147 | the first visit counts the free bytes and the first file with an extension, and moves the next nonce to the largest end of a matching plot, if that lies ahead, and no further |
| `RangeAllocator.RangeAllocator.Fill` | src/plotter.cpp:148-159 | files on one drive, each of the rounded minimum of wanted nonces, cap and space, until that is 0 |
| `RangeAllocator.RangeAllocator.Pass` | src/plotter.cpp:111-161 | one pass over drives that may repeat or be missing |
| `RangeAllocator.LastEndIs` | src/plotter.cpp:141-146 | the last end of a drive is the first nonce past all its matching plots |
| `RangeAllocator.AllocatedKeeps` | src/plotter.cpp:111-163 | for every request and list of drives: ranges ascend and are disjoint; each starts where the last one ended or at the last matching end of drives first seen since; each has the rounded minimum of what was wanted, the cap and the space then; they add up with the rest to the request, and space never goes negative; what is left on a drive and its files make up its free bytes and its temporary file; and if the cap is positive and below INT32_MAX, fewer than 8 nonces are left or no drive has room for 8 plots |
| `RangeAllocator.NextFileStops` | src/plotter.cpp:149-153 | exactly when a drive gets no further file: nonces, cap or space short of the unit, or the INT32_MAX limit |
| `RangeAllocator.NextFileBounds` | src/plotter.cpp:149-153 | a file never exceeds what is wanted, the cap, INT32_MAX or the space |
| `RangeAllocator.NextFileIsLargest` | src/plotter.cpp:149-151 | a file takes the largest multiple of the unit that is wanted, within the cap and within the space |
| `RangeAllocator.MatchesWindow` | src/plotter.cpp:141 | for every start nonce: a plot matches exactly if it starts in the same window of 2^32 nonces |
| `RangeAllocator.FileKeepsConsistent` | src/plotter.cpp:154-158 | one more file keeps all of it |
| `RangeAllocator.DriveKeepsConsistent` | src/plotter.cpp:115-147 | one more drive keeps all of it |
| `RangePlacement.ContiguousIff` | src/plotter.cpp:141-155 | in every plan a range starts where the one before it ends if and only if every drive first seen in between has its last matching end there or before |
| `RangePlacement.AlwaysContiguousIff` | src/plotter.cpp:141-155 | what a caller can check: whatever is wanted and whatever space there is, the ranges are contiguous from the first nonce, if and only if no matching plot on a listed drive ends after it |
| `RangePlacement.MeetsIff` | src/plotter.cpp:139-146 | a range has a nonce in common with an existing plot if and only if their bounds say so and the plot does not match or its drive was first seen after the range was granted |
| `RangePlacement.RunIsOneRange` | src/plotter.cpp:139-155 | with nothing ahead, an existing plot meets some range exactly if it meets the one range of all granted nonces, and no matching plot of a listed drive does |
| `RangePlacement.AlwaysKeepsOffIff` | src/plotter.cpp:112-146 | what a caller can check: whatever is wanted and whatever space there is, no range meets a matching plot, if and only if such plots on drives other than the first one that is there end where the first range starts or before |
| `RangePlacement.AlwaysMaximalIff` | src/plotter.cpp:108-153 | whatever is wanted and whatever drives there are, no drive with room for 8 wanted plots is passed over, if and only if the cap is positive and below INT32_MAX |
| `RangePlacement.PassesUseUnits` | src/plotter.cpp:162-163 | the first pass cuts multiples of 64, and all that the second pass adds is smaller than 64 |
| `RangePlacement.ResumesOnFullDrive` | src/plotter.cpp:131-135 | an input on which [0,64) is granted on a drive without free space, as it holds a temporary file of that size |
| `RangePlacement.GapBetweenDrives` | src/plotter.cpp:146 | an input with a gap: [0,64) on the first drive, then [1008,1072), as the second drive holds [1000,1008) |
| `RangePlacement.MeetsPlotOfLaterDrive` | src/plotter.cpp:112-146 | an input on which [0,64) is granted on the first drive although the second holds [0,8) |
| `RangePlacement.MeetsPlotOfNextWindow` | src/plotter.cpp:141 | an input on which a range goes over a plot of the only drive, as the plot starts in the next 2^32 nonces |
| `RangePlacement.PassesOver` | src/plotter.cpp:152-153 | inputs on which nothing is granted although there is room: a cap of 0, or one of 2^31 and more with 2^31 nonces wanted |
| `RunPlan.AllocatedPlanIsReady` | src/plotter.cpp:165-170 | the files of all writers are nonempty and add up to what was wanted less what was left, the total that the dispatcher waits for |
| `RunPlan.RowsAreTheTasks` | src/plotter.cpp:154-158 | the plan of the pipeline is what the allocator has pushed to each writer |
| `RunPlan.RowsAddUp` | src/plotter.cpp:154-158 | every grant is on exactly one writer |
| `EndToEnd.CountersSeeTheEnd` | src/plotter.cpp:215-247 | the 32-bit counters meet the 64-bit total exactly when all is finished if total < 2^31, and never otherwise |
| `Verifier.VerifyFile` | src/plotter.cpp:397-464 | one step option sets the gap and the launches: rejects the header exactly if it does not fit; accepts only if all windows show what the device computes, and reports a mismatch only if they do not; a correct file whose size fits is never rejected if the step makes the launches mask; it gives up if and only if a seek or a read has failed |
| `Verifier.CheckWindow` | src/plotter.cpp:447-461 | a window passes only if all its slots hold the rows that the device shows, a mismatch is a real one, and it gives up if and only if a seek or a read has failed |
| `Verifier.WindowsAreSpaced` | src/plotter.cpp:442-445 | windows lie in the file, from its end down, exactly step nonces apart, with at most step nonces before the last |
| `Verifier.WindowsDisjoint` | src/plotter.cpp:442-445 | no two windows overlap |
| `Verifier.HeaderAccepts` | src/plotter.cpp:419-423 | the size check accepts the even counts and exactly 7, not the multiples of 8 |
| `Verifier.AllShownIs` | src/plotter.cpp:442-461 | the windows show what they should exactly if every nonce looked at does |
| `Verifier.StepsThatMask` | src/plotter.cpp:425-429 | the step options for which the verifier compares with masked plots are 0 and the divisors of 8192 and 8193, and 100 is not one |
| `Verifier.StepZeroIsComplete` | src/plotter.cpp:442 | with step 0 the comparison accepts exactly the files the writers should leave |
| `Verifier.LookedByteIsFixed` | src/plotter.cpp:454-460 | with such a step every byte of a nonce looked at must be the reference byte, so any change there is rejected |
| `Verifier.UnlookedByteIsFree` | src/plotter.cpp:442-445 | bytes of nonces not looked at do not matter |
| `Verifier.WrittenFileShowsIff` | src/plotter.cpp:442-461 | a file with the layout of the writers passes the comparison, for every work size, exactly if the step option makes the launches mask, or all final hashes looked at are zero |
| `RoundTrip.RunSizes` | src/common/file.h:110-137 | no run shortens a file or lets it grow beyond what its nonces need |
| `RoundTrip.RenamedFileIsAccepted` | src/plotter.cpp:418-464 | every renamed file without spoiling cut-off write passes the size check exactly if the temporary file found was no longer than needed and the count is even or 7, and the comparison exactly if the step option makes the launches mask or all final hashes looked at are zero |

## Left out

- Concurrency inside one step: a hash step or a write attempt is one step of the pipeline. That is sound because a
  block in use belongs to one task and a file to one writer, which is proved.
- A writer's single file handle: each file is an object of its own, so closing one and opening the next at a switch is not a
  step; that a switch only ever leaves a finished file is proved.
- Rename is taken to succeed; the program does not check it either (a failed rename would leave the temporary name).
- Thread shutdown after a stop, joining, and wake-up of waiting threads: the queue sets its exit flag without the lock,
  so the code guarantees nothing there. Runs may end anywhere.
- Liveness under a concrete scheduler: what is proved is a bound on productive steps and that completion stays
  reachable, not fairness of the operating system.
- Kernel.WorkItem: passes for negative hashes, which occur for steps that never mask, read outside the nonce and possibly
  outside the buffer; that such reads do no harm is assumed, and what they compute is not used. A negative step is not
  modelled.
- Hasher.FillBlock: beyond the bounds of `Hasher.BoundsAreExact` the program reads and writes outside the block; what then
  happens is not modelled.
- OpenCL contexts, builds, events and exceptions: a launch is a set of work items over one array.
- Handles, volumes and privileges of the operating system: a file is its bytes and a position.
- Directory listing and file names: existing plots are a list of ranges, already restricted to the plot id.
- Bench modes, disk bench, the comparison run, options, signals, timers, speed figures, logging, hex output: no state
  that the properties depend on.
- Shabal sizes other than 256 bits, extra-bit closing, big-endian and assembly variants: no new reasoning.

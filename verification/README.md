# Verified model of hybrid object matching

The program searches square integer pictures for smaller square objects. An object occurs at a placement when
the sum of relative differences over its cells is below a threshold. Four mechanisms compute the same answer: a
sequential scan, an OpenMP loop over a shared minimum, CUDA kernels that race on one result slot per object, and
MPI ranks that claim pictures from a shared counter and let rank 0 reassemble the results. The program promises
that none of this shows: every run reports, for every picture in input order, the object of lowest id that occurs,
at its row-major-first placement.

This project states that answer once, as `Canonical.IsCanon`, and proves that every run of every mechanism agrees
with it, from the text of a problem to the array of results. The two smaller programs of the same repository that
make a claim of this kind, the distributed sum and the distributed matrix product, are proved to give the same
answer for every number of ranks.

## How it is built

| file | what it models |
|---|---|
| `Types.dfy`, `Integers.dfy` | C integers and doubles, the data model; index arithmetic |
| `Metric.dfy`, `Score.dfy`, `Rounding.dfy` | the shared score with its early exit (`metric.h`); what it means; the machine arithmetics it covers |
| `Canonical.dfy` | placements, keys, and the determinism contract (`backend.h`) |
| `Serial.dfy`, `OpenMp.dfy` | the two CPU backends |
| `Driver.dfy`, `Kernels.dfy`, `Cuda.dfy` | calls that can fail; the device and the host side of the CUDA backend |
| `Sorting.dfy`, `Problems.dfy` | the stable sort, validation, sizing, and the broadcast of a problem |
| `Gather.dfy`, `MpiRuntime.dfy` | reassembly of the records, and the distributed run |
| `Runtime.dfy`, `Claiming.dfy` | local run, distributed run, and their equality; the claim loop as one rank runs it |
| `Planting.dfy` | planted copies, repeated ids, `msearch_match_found` |
| `Lexer.dfy`, `Parser.dfy`, `Format.dfy`, `Rejections.dfy` | the reader, its grammar, what holds of every text, and what is turned down |
| `Printer.dfy`, `Generator.dfy` | problems as text, in any layout and as `gen_input.py` writes them |
| `EndToEnd.dfy` | from a text to the results on rank 0 |
| `Blocks.dfy`, `DistributedSum.dfy`, `MatrixMultiply.dfy` | the block decomposition and the two programs that use it |

`dafny verify dfyconfig.toml` checks everything.

## Reading the model

- **Scores.** `Metric.Arithmetic` leaves addition and division open. The proofs ask that adding a non-negative term
  does not decrease a non-negative sum, that a magnitude over a denominator other than zero is not negative, and that
  `zero_eps` is positive. Rounded arithmetic meets this (`Rounding.RoundedIsSound`), so nothing is claimed for the reals
  only. NaN and the infinities are values; the comparisons are C's.
- **Interleavings.** Concurrent code is a machine whose steps may be taken in any order; a theorem about runs holds
  for all of them. In `OpenMp` an iteration is a snapshot read, a score and a guarded update, and chunks and threads
  are left out because any order of iterations is allowed. In `Kernels` a step is one read of an earlier slot, one
  loop test, one score or one `atomicMin`. A relaxed or volatile read may return any value the location has held.
- **Stream order.** `Queue.ordered` says whether a finished kernel's slot is visible to later kernels. The host
  queues on one stream, so it holds there. That the returned match is canonical is proved without it; that at most
  one slot is filled needs it (`Kernels.StaleGateFillsTwo`).
- **Leftover slots.** A queue starts from whatever the device slots hold. All results about runs ask that the host has
  written the sentinel to them; `Kernels.ResetIsNeeded` says that this is exactly what they need.
- **MPI.** A collective is one step that all ranks take together once all have arrived, so that every collective
  synchronises. MPI also lets a rank return from a gather or a broadcast early. A fetch-and-add is atomic
  (section 11.3.4 of MPI-3.1). `job.reserves` says whether rank 0 can allocate its gather buffers. A world of one rank
  runs the local run directly (`src/runtime/runner_mpi.c:238-241`), which is `Runtime.RunLocal`; the machine has two
  ranks or more. Each rank may use a backend of its own.
- **Failing calls.** `Driving.Driver` fixes from outside which calls fail. An operation that can fail has a list of steps,
  in the order of the source, and its contract equates its status and the number of calls it made with
  `Driving.Attempt` of that list.
- **Absent data.** A null data pointer is an empty sequence.
- **`strtod`.** The conversion of the threshold is a parameter of the parser: any function from a token to a number or
  to a failure.
- **Tokens.** The grammar of `Parsing` reads a list of tokens; `Lexing.Tokens` is the list a text yields, ended by an
  over-long token if there is one. The reader itself works on a `Lexer` object and arrays and is proved equal to it.

## Where the code and its documentation differ

- `types.h` makes `object_id >= 0` the only sign of a match, and the parser accepts negative ids. A match of an object
  with a negative id is reported as none. `Planting.MatchFoundIff` gives the exact condition, `Planting.NegativeIdIsHidden` an
  input; the sign of the row is right for any ids (`Canonical.NoMatchMeansNowhere`).
- The comments of `process_claimed_pictures` say that every rank reaches the collectives. Rank 0 does not if its
  gather buffers fail to allocate: it passes both gathers by, and the others may wait for it in the first. If collectives
  synchronise the run cannot be completed then, and it can in every other case (`MpiRuntime.CompletesIffReserved`).
- The lexer takes a newline that ends a token for part of the next line and never counts it again, so reported line
  numbers fall behind, by the number of tokens directly followed by a newline (`Lexing.Lexer.ReadTokens`).
  `Lexing.CounterFallsBehind` gives an input.
- The format comment speaks of `#` comments without restriction. A `#` starts a comment only where a token could start;
  inside a word it belongs to the word. `Printing.HashInsideWord` gives an input that is rejected, and
  `Printing.LayoutTokens` the exact condition on layouts.
- `matrix-multiply` and `distributed-sum` accept any positive `n`. `DistributedSum.FillSumsToClosed` shows that the array
  sums to the expected value exactly when n is an int, `MatrixMultiply.CallsAreExactIff` that the counts given to MPI are
  right exactly when n*n is. `MatrixMultiply.CountsGoWrong` gives an order at which the broadcast count is negative and one
  at which it is zero.

## Model

| member | source | states |
|---|---|---|
| `Metric.SumGrows` | examples/hybrid-object-matching/include/msearch/metric.h:47-48 | Along the row-major order partial sums never decrease, for every arithmetic in which adding a non-negative term does not decrease a non-negative sum (rounded addition included). |
| `Metric.EarlyExitDecides` | examples/hybrid-object-matching/include/msearch/metric.h:44-71 | For every picture, object, placement and threshold, the early-exit score is below the threshold exactly when the full m*m sum is, equals the full sum in that case, and is never above it otherwise. |
| `Metric.ComputeScore` | examples/hybrid-object-matching/include/msearch/metric.h:56-71 | The double loop with its per-row test returns a score whose comparison with the threshold is that of the full sum (which ScoreMeaning gives term by term); every element access lies inside the n*n and m*m cells. |
| `ScoreMeaning.ScoreAddsEveryCell` | examples/hybrid-object-matching/include/msearch/metric.h:38-65 | For every arithmetic the full score adds exactly one term for each of the m*m cells, from the left in row-major order: the difference of the picture's and the object's value over the picture's, or over zero_eps where that is 0. |
| `ScoreMeaning.ScoreIsTotal` | examples/hybrid-object-matching/include/msearch/metric.h:20-42 | In exact arithmetic the full score is the double sum over rows and columns of abs(p - o) / abs(p), or abs(o) / zero_eps where p is 0, and the early-exit score is below the threshold exactly when that sum is. |
| `Metric.ScoreIgnoresLeftovers` | examples/hybrid-object-matching/include/msearch/metric.h:60-65 | The score depends on nothing in the buffers beyond the leading n*n and m*m cells. |
| `Metric.CopyScoresZero` | examples/hybrid-object-matching/include/msearch/metric.h:29-42 | An object over an exact copy of itself scores exactly zero, cells that hold zero included. |
| `Rounding.RoundedIsSound` | examples/hybrid-object-matching/include/msearch/metric.h:44-49 | Any machine whose rounding is monotone and leaves its own numbers alone, overflow included, is an arithmetic to which all results about scores apply. |
| `Rounding.CompareLikeC` | examples/hybrid-object-matching/include/msearch/metric.h:66-67 | Comparisons of scores: false with NaN, otherwise a strict total order that on finite values is that of the reals. |
| `Types.NarrowingWraps` | examples/hybrid-object-matching/src/backends/backend_cuda.cu:86-89 | The cast to int keeps a value modulo 2^32. |
| `Canonical.PlacementsFitInt` | examples/hybrid-object-matching/src/core/problem.c:70-73 | Under the side bound every placement key is strictly below the sentinel, so narrowing it to int and comparing it with the sentinel are both safe. |
| `Canonical.KeyPacks` | examples/hybrid-object-matching/include/msearch/backend.h:19-21 | Packing (row, col) as row*span+col and dividing again gives (row, col) back; with KeyUnpacks this is a bijection between keys and placements. |
| `Canonical.KeyUnpacks` | examples/hybrid-object-matching/src/backends/backend_serial.c:67-68 | Every key in range divides into a row and a column of the grid that pack to it. |
| `Canonical.KeyOrder` | examples/hybrid-object-matching/include/msearch/backend.h:17-21 | Numeric order of keys is row-major order of placements, in both directions. |
| `Canonical.HitsAreOccurrences` | examples/hybrid-object-matching/src/backends/backend_cuda.cu:86-89 | A key is a hit for the early-exit score exactly when the placement it unpacks to occurs by the full score; the casts of key, row and column lose nothing. |
| `Canonical.CanonExists` | examples/hybrid-object-matching/include/msearch/backend.h:14-21 | Every search has a canonical answer: nothing occurs, or a lexicographically least (object, row, column) does. |
| `Canonical.CanonUnique` | examples/hybrid-object-matching/include/msearch/backend.h:14-21 | The contract determines the answer. |
| `Canonical.FoundIsCanon` | examples/hybrid-object-matching/include/msearch/backend.h:16-21 | The least hit of the first object that has one, unpacked, is the canonical answer. |
| `Canonical.PickIsCanon` | examples/hybrid-object-matching/src/backends/backend_cuda.cu:302-311 | Picking the first filled slot gives the canonical match as soon as the slots are right up to that slot; later slots may hold anything. |
| `Canonical.NoMatchMeansNowhere` | examples/hybrid-object-matching/include/msearch/types.h:70-74 | For any ids, the result is (id, -1, -1, -1), equivalently has a row or a column below zero, exactly when nothing occurs. |
| `Canonical.MatchMeansFirst` | examples/hybrid-object-matching/include/msearch/backend.h:14-21 | Otherwise an object with the reported id occurs at the reported row and column, and every other occurrence comes later in (object, row, column). |
| `Serial.ScanIsCanon` | examples/hybrid-object-matching/src/backends/backend_serial.c:54-81 | The sequential scan returns the canonical match: first matching object in array order, row-major-first placement. |
| `Serial.ScanKeys` | examples/hybrid-object-matching/src/backends/backend_serial.c:64-78 | The inner loop over keys, scoring each placement, stops at the first key that hits. |
| `Serial.SerialSearch` | examples/hybrid-object-matching/src/backends/backend_serial.c:44-81 | serial_search, for any arithmetic at all, is that scan. |
| `OpenMp.StepKeepsInv` | examples/hybrid-object-matching/src/backends/backend_openmp.c:89-115 | Every step of every iteration (snapshot read of any value ever held, score, guarded update) keeps: every value held is a hit or the sentinel, none is below the current one, and no finished hit is below the current one. |
| `OpenMp.RunIsLeast` | examples/hybrid-object-matching/src/backends/backend_openmp.c:81-117 | For every interleaving, chunk assignment and stale snapshot, a finished loop leaves the least matching key, or the sentinel when there is none. |
| `OpenMp.RunCompletes` | examples/hybrid-object-matching/src/backends/backend_openmp.c:86-115 | From every reachable state the loop can finish. |
| `OpenMp.RunBounded` | examples/hybrid-object-matching/src/backends/backend_openmp.c:86-115 | No schedule is longer than three steps an iteration. |
| `OpenMp.LowestMatchingPlacement` | examples/hybrid-object-matching/src/backends/backend_openmp.c:81-117 | Run under an arbitrary schedule, the parallel loop terminates with the least matching key. |
| `OpenMp.OpenMpSearch` | examples/hybrid-object-matching/src/backends/backend_openmp.c:119-147 | openmp_search returns the canonical match. |
| `OpenMp.OutcomeIsCanon` | examples/hybrid-object-matching/src/backends/backend_openmp.c:119-147 | Whatever runs its loops take, every result openmp_search can return is the canonical match. |
| `Kernels.StepKeepsInv` | examples/hybrid-object-matching/src/backends/backend_cuda.cu:43-92 | Every step of every thread keeps: slots only fall and hold only hits of their object, what a thread has passed over cannot improve its slot, an exited thread leaves nothing of its stride below the slot unless an earlier object matched, and every kernel already drained is right. |
| `Kernels.AdvanceKeepsInv` | examples/hybrid-object-matching/src/backends/backend_cuda.cu:273-295 | When the last thread of a kernel is out, its slot is the least hit unless an earlier object matched; the next kernel starts from there. |
| `Kernels.RunSettles` | examples/hybrid-object-matching/src/backends/backend_cuda.cu:43-92 | Once the slots hold the sentinel, for every grid size, interleaving, early return and stale read of the running minimum: slots are least keys up to the first object that matched, every filled slot holds a hit, and under stream order at most one slot is filled. |
| `Kernels.ResetIsNeeded` | examples/hybrid-object-matching/src/backends/backend_cuda.cu:264-271 | For what the slots hold when the first kernel starts: every queue settles in every run if and only if all of them are sentinels. |
| `Kernels.StaleGateFillsTwo` | examples/hybrid-object-matching/src/backends/backend_cuda.cu:41-51 | If stream order did not make earlier slots visible, a run could fill two slots: the header comment's visibility is what at-most-one rests on. |
| `Kernels.RunCompletes` | examples/hybrid-object-matching/src/backends/backend_cuda.cu:276-300 | From every reachable state the queue of kernels can drain. |
| `Kernels.Drain` | examples/hybrid-object-matching/src/backends/backend_cuda.cu:67-92 | Run under an arbitrary schedule with arbitrary admissible reads, the queue drains with those slots. |
| `Cuda.LaunchBlocks` | examples/hybrid-object-matching/src/backends/backend_cuda.cu:285-289 | At least one block is launched, none lies wholly past the placements, and the blocks cover the placements unless the cap is reached. |
| `Cuda.SlicesDisjoint` | examples/hybrid-object-matching/src/backends/backend_cuda.cu:216-222 | Packed slices follow one another: no two objects overlap and all fit the one allocation. |
| `Cuda.PackedSlice` | examples/hybrid-object-matching/src/backends/backend_cuda.cu:216-222 | Every object is read back whole from its own offset in the packing. |
| `Cuda.Create` | examples/hybrid-object-matching/src/backends/backend_cuda.cu:163-242 | cuda_create takes its steps in order and reports the first that fails, so it succeeds exactly when the chosen device is there and every call succeeds; a context that is created has every object packed at its offset and a picture buffer that holds every picture of the problem. |
| `Cuda.DeviceRefused` | examples/hybrid-object-matching/src/backends/backend_cuda.cu:183-196 | With all calls succeeding: refused if no device is visible or the number asked for is not, and never for the device that a rank's place on its node selects. |
| `Driving.AttemptSucceeds` | examples/hybrid-object-matching/src/backends/backend_cuda.cu:112-125 | Steps checked one by one succeed exactly when all of them are calls that succeed, and then all have been made. |
| `Cuda.CudaContext.Upload` | examples/hybrid-object-matching/src/backends/backend_cuda.cu:259-262 | The upload fits, puts the picture at the front of the device buffer and leaves an earlier, larger picture's cells behind it. |
| `Cuda.CudaContext.ResetResults` | examples/hybrid-object-matching/src/backends/backend_cuda.cu:264-271 | If its call succeeds, the sentinel is in every slot on both sides, whatever was there. |
| `Cuda.CudaContext.DeviceHitsAreHits` | examples/hybrid-object-matching/src/backends/backend_cuda.cu:291-293 | What a kernel decides from the persistent buffers is what the picture and the object themselves decide: leftovers and neighbouring objects are never read. |
| `Cuda.CudaContext.RunKernels` | examples/hybrid-object-matching/src/backends/backend_cuda.cu:276-295 | From device slots that hold the sentinel, one kernel and one checked call for each object that fits; what the queue leaves in the device slots is right up to the first match and at most one slot is filled. |
| `Cuda.CudaContext.SearchPicture` | examples/hybrid-object-matching/src/backends/backend_cuda.cu:244-316 | Makes its calls in order and returns MSEARCH_ERR_BACKEND with no match at the first that fails, and at nothing else; otherwise, whatever earlier searches left in the picture buffers and in the result slots, it returns MSEARCH_OK and the canonical match. |
| `Cuda.CudaContext.SearchAll` | examples/hybrid-object-matching/src/backends/backend_cuda.cu:244-316 | For every sequence of pictures of any sizes searched in turn through one context, out at the first call that fails: each result is the canonical match, and equals every result a fresh context can return for that picture; all are there exactly when every call of every search succeeds. |
| `Cuda.LeftoverIsPicked` | examples/hybrid-object-matching/src/backends/backend_cuda.cu:302-311 | Without the reset, a slot left by an earlier picture makes the pick report a match in a picture that has none. |
| `Cuda.OutcomeIsCanon` | examples/hybrid-object-matching/src/backends/backend_cuda.cu:276-312 | Every result cuda_search can return is the canonical match, even if the reads of earlier slots are stale. |
| `Cuda.SlotsAreCanon` | examples/hybrid-object-matching/src/backends/backend_cuda.cu:264-300 | Under stream order the whole slot array is determined: only the canonical object's slot is filled, with the packed key of its canonical placement. |
| `Sorting.SortPermutes` | examples/hybrid-object-matching/src/core/problem.c:128-144 | The sorted objects are ordered by id and are the given ones. |
| `Sorting.SortIsStable` | examples/hybrid-object-matching/src/core/problem.c:130-132 | For every id, the objects that carry it keep their input order, payloads attached. |
| `Sorting.StableSortUnique` | examples/hybrid-object-matching/src/core/problem.c:130-132 | Sorted sequences that agree id by id are equal, so stability and order leave only one result. |
| `Sorting.SortIdempotent` | examples/hybrid-object-matching/src/core/problem.c:128-144 | Sorting sorted objects changes nothing, repeated ids included. |
| `Sorting.SortObjects` | examples/hybrid-object-matching/src/core/problem.c:133-144 | The insertion sort that shifts the array in place leaves the stable sort of what was there. |
| `Sorting.SortBreaksTies` | examples/hybrid-object-matching/src/core/problem.c:130-132 | The first object of the sorted array with any given property is, in the input, the first one of the least id among those that have it. |
| `Problems.AllocStatus` | examples/hybrid-object-matching/src/core/problem.c:70-86 | A side is accepted exactly when it is positive and its square is a 32-bit int. |
| `Problems.Validate` | examples/hybrid-object-matching/src/core/problem.c:146-196 | Validation accepts or rejects in three passes and, only if it accepts, leaves the objects stably sorted. |
| `Problems.ValidatedIsLoaded` | examples/hybrid-object-matching/src/core/problem.c:146-196 | Full matrices pass exactly when the threshold is positive (so not NaN); what comes out is loaded; a problem is loaded exactly when validating it succeeds and changes nothing. |
| `Rejections.ValidationAccepts` | examples/hybrid-object-matching/src/core/problem.c:146-175 | Validation accepts exactly a positive threshold, pictures of side 1..46340 with data and objects of positive side with data, and then changes nothing but the order of the objects; everything else is invalid. |
| `Problems.MaxPictureElems` | examples/hybrid-object-matching/src/core/problem.c:116-126 | The largest picture size: no picture exceeds it and some picture attains it. |
| `Problems.PackShapes` | examples/hybrid-object-matching/src/runtime/runner_mpi.c:65-83 | The shape array holds the id and size of every picture and, after them, of every object. |
| `Problems.Receive` | examples/hybrid-object-matching/src/runtime/runner_mpi.c:89-123 | A receiving rank allocates, copies and re-validates; its result is a function of what crosses the wire. |
| `Problems.BroadcastReplicates` | examples/hybrid-object-matching/src/runtime/runner_mpi.c:43-128 | Every receiving rank ends with the root's problem validated, and with the root's problem itself, order of repeated ids included, exactly when the root's is loaded. |
| `Gather.DecodeEncode` | examples/hybrid-object-matching/src/runtime/runner_mpi.c:157-161 | Records written four ints at a time are read back unchanged. |
| `Gather.FlattenBlock` | examples/hybrid-object-matching/src/runtime/runner_mpi.c:193-200 | Each rank's block sits whole at its displacement in the gathered buffer. |
| `Gather.Displacements` | examples/hybrid-object-matching/src/runtime/runner_mpi.c:193-199 | The running totals are the lengths of what comes before each rank. |
| `Gather.Gatherv` | examples/hybrid-object-matching/src/runtime/runner_mpi.c:200-200 | Writing each rank's ints at its displacement leaves the concatenation in rank order. |
| `Gather.PlacedAt` | examples/hybrid-object-matching/src/runtime/runner_mpi.c:202-221 | With in-range, distinct indices the assembly succeeds; a place holds the match of the record that names it, and otherwise what it held. |
| `Gather.PlacedIgnoresOrder` | examples/hybrid-object-matching/src/runtime/runner_mpi.c:28-31 | The assembled array does not depend on the order of the records. |
| `Gather.DistinctFits` | examples/hybrid-object-matching/src/runtime/runner_mpi.c:249-251 | Distinct in-range records never exceed the number of pictures, so the buffers of that size hold them. |
| `Gather.GatherRecords` | examples/hybrid-object-matching/src/runtime/runner_mpi.c:170-229 | On rank 0 the displacements, the gather, the blanking and the scatter loop leave the status and the array that writing the decoded records in turn gives. |
| `MpiRuntime.StepKeepsInv` | examples/hybrid-object-matching/src/runtime/runner_mpi.c:231-293 | Every event at every rank keeps the run synchronised by collective, every claim accounted for, failure and fault in step, and the gathered records sound. |
| `MpiRuntime.ClaimConservation` | examples/hybrid-object-matching/src/runtime/runner_mpi.c:135-167 | In every reachable state the indices handed out are exactly [0, min(counter, P)), counting from when rank 0 has zeroed the counter; each is held by exactly one rank, in exactly one way (recorded, in flight or lost); a rank that lost one reports a failure; the counter never exceeds P + world. |
| `MpiRuntime.HealthyRankDrains` | examples/hybrid-object-matching/src/runtime/runner_mpi.c:262-268 | From the moment a rank leaves the claiming loop without a failure, no picture is unclaimed, whatever failed elsewhere. |
| `MpiRuntime.GatherFits` | examples/hybrid-object-matching/src/runtime/runner_mpi.c:178-221 | Gathered indices are in range and unique; the total fits the buffer of num_pictures records and each rank's records fit its own. |
| `MpiRuntime.AssembleKeeps` | examples/hybrid-object-matching/src/runtime/runner_mpi.c:210-216 | Rank 0 never takes the out-of-range branch. |
| `MpiRuntime.AssembledAt` | examples/hybrid-object-matching/src/runtime/runner_mpi.c:202-221 | At the end rank 0 holds the expected match wherever some rank recorded one and "no match" elsewhere, also in runs with failures. |
| `MpiRuntime.RunResult` | examples/hybrid-object-matching/src/runtime/runner_mpi.c:231-301 | At the end of every run all ranks have passed the same six collectives in the same order, all report success or all report failure, success means that no fault happened, and then the array is the expected one. |
| `MpiRuntime.FirstErrorIsReported` | examples/hybrid-object-matching/src/runtime/runner_mpi.c:271-293 | A rank reports the first error it had, whatever happens after. |
| `MpiRuntime.ErrorStays` | examples/hybrid-object-matching/src/runtime/runner_mpi.c:280-293 | No step changes an error; a rank that gets one without a fault of its own gets MSEARCH_ERR_BACKEND, and only if some rank failed. |
| `MpiRuntime.Progress` | examples/hybrid-object-matching/src/runtime/runner_mpi.c:148-155 | No deadlock: if rank 0's gather buffers can be allocated, some step other than a fault is enabled until all ranks are done. |
| `MpiRuntime.RunBounded` | examples/hybrid-object-matching/src/runtime/runner_mpi.c:139-146 | No run is longer than 14 steps a rank and 2 a picture. |
| `MpiRuntime.CompletesIffReserved` | examples/hybrid-object-matching/src/runtime/runner_mpi.c:178-188 | With collectives that synchronise, from any point of any run the run can be completed if and only if rank 0's gather buffers can be allocated: it skips both gathers otherwise, while the other ranks are in the first. |
| `Claiming.ProcessClaimedPictures` | examples/hybrid-object-matching/src/runtime/runner_mpi.c:130-168 | One rank's claim loop, with other ranks free to claim in between: every value it got but the last has its record, in order and with the canonical match; it stops at the last because that is past the pictures (success) or because a call of its search failed, and for no other reason; the buffer sized for one rank claiming everything is never overrun. |
| `Runtime.BackendsAgree` | examples/hybrid-object-matching/include/msearch/backend.h:11-27 | The determinism contract: every result of every backend, under any schedule, is the canonical match. |
| `Runtime.BackendAnswers` | examples/hybrid-object-matching/include/msearch/backend.h:56-57 | Every backend does have a result for every picture, so the agreement is not about nothing. |
| `Runtime.RunLocal` | examples/hybrid-object-matching/src/runtime/runner_local.c:5-25 | With any backend, one context for all pictures: the status is that of the first thing that fails, or MSEARCH_OK if nothing does; success fills the array with canonical matches in input order; a failing search leaves a canonical prefix, "no match" at its picture and nothing touched past it; a CPU backend fails only with MSEARCH_ERR_NOMEM, having touched nothing. |
| `Runtime.SearchOne` | examples/hybrid-object-matching/include/msearch/backend.h:56-57 | A search fails only through a call it makes, so a CPU backend's never does; it returns the canonical match, or no match if it fails. |
| `Runtime.LocalRunSucceeds` | examples/hybrid-object-matching/src/runtime/runner_local.c:5-25 | A local run on a CPU backend succeeds exactly when its context can be allocated, and on CUDA exactly when the device is there and every call succeeds. |
| `Runtime.MpiEqualsLocal` | examples/hybrid-object-matching/include/msearch/runtime.h:1-5 | For every world size, interleaving and per-rank choice of backend, a run without faults leaves rank 0 exactly the array of the local run, and all ranks agree on success or failure. |
| `Runtime.MpiCompletes` | examples/hybrid-object-matching/src/runtime/runner_mpi.c:178-188 | With the real backends, too, and collectives that synchronise, a run can be completed exactly when the gather buffers can be allocated. |
| `Runtime.GatheredInts` | examples/hybrid-object-matching/src/runtime/runner_mpi.c:190-200 | In every reachable state the int messages fit rank 0's buffer and decode to the records of all ranks in rank order. |
| `Runtime.CountersFitInt` | examples/hybrid-object-matching/src/runtime/runner_mpi.c:139-146 | With the parser's bound on counts the shared counter, every message length, every displacement and the gathered total stay within int, for up to a million ranks. |
| `Planting.Plant` | examples/hybrid-object-matching/tools/gen_input.py:99-103 | The row-by-row copy leaves the planted picture in the array. |
| `Planting.PlantedAt` | examples/hybrid-object-matching/tools/gen_input.py:99-103 | Cell by cell: inside the block the picture holds the object's cell, outside it keeps its own. |
| `Planting.PlantedIsFound` | examples/hybrid-object-matching/tools/gen_input.py:93-103 | After planting any object of the problem at any in-range position, the search finds a match whose (object, row, column) is no later than the planted one, cells of value zero included. |
| `Planting.InputOrderBreaksTies` | examples/hybrid-object-matching/src/core/problem.c:128-132 | With objects sorted as validation sorts them, the reported object is the input-order-first one of the least id among those that occur. |
| `Planting.MatchFoundIff` | examples/hybrid-object-matching/include/msearch/types.h:54-68 | msearch_match_found is right for every picture exactly when no object id is negative. |
| `Planting.NegativeIdIsHidden` | examples/hybrid-object-matching/include/msearch/types.h:54-68 | A concrete problem in which an object occurs and is reported as not found. |
| `Lexing.Lexer.Getc` | examples/hybrid-object-matching/src/core/parser.c:37-44 | One character, in order; the counter follows the newlines read. |
| `Lexing.Lexer.SkipToToken` | examples/hybrid-object-matching/src/core/parser.c:51-68 | Leaves the reader at the first character that is neither whitespace nor inside a comment, or at the end. |
| `Lexing.WhitespaceIs` | examples/hybrid-object-matching/src/core/parser.c:54-54 | The whitespace characters are the six of the C locale. |
| `Lexing.Lexer.ReadWord` | examples/hybrid-object-matching/src/core/parser.c:70-79 | Cuts the word up to the next whitespace, or reports it over-long from 64 characters on. |
| `Lexing.Lexer.Next` | examples/hybrid-object-matching/src/core/parser.c:48-85 | Returns the next token and stops after its one delimiter, or reports the end or an over-long token; the line counter falls behind by one exactly when, in the text before the call, the next token fits the buffer and is directly followed by a newline. |
| `Lexing.Lexer.ReadTokens` | examples/hybrid-object-matching/src/core/parser.c:80-82 | Over any number of calls the counter falls behind by the number of tokens directly followed by a newline, and so is right if and only if there was none. |
| `Lexing.NoneEndsLine` | examples/hybrid-object-matching/src/core/parser.c:80-82 | That number is zero exactly when no token among those read is directly followed by a newline. |
| `Lexing.CutIsWord` | examples/hybrid-object-matching/src/core/parser.c:70-79 | Filling the token buffer character by character is cutting the text at its first whitespace, with the 64-character limit. |
| `Lexing.CounterFallsBehind` | examples/hybrid-object-matching/src/core/parser.c:80-82 | A two-character text on which, once its only token is read, the reported line is one too low. |
| `Parsing.ExpectInt` | examples/hybrid-object-matching/src/core/parser.c:87-107 | Takes one token and agrees with the grammar on the value, on the error and on the tokens left; Printing.ParseIntExactly says which tokens have a value. |
| `Printing.ParseIntExactly` | examples/hybrid-object-matching/src/core/parser.c:96-105 | A token is read as v if and only if v is an int and the token is an optional sign, leading zeros and the decimal digits of its magnitude. |
| `Printing.NotAnInt` | examples/hybrid-object-matching/src/core/parser.c:98-104 | Rejected: numerals beyond int on either side, any character after the digits, a sign alone, the empty token. |
| `Printing.ZeroByteEnds` | examples/hybrid-object-matching/src/core/parser.c:83-98 | A zero byte in a token ends it for the conversion. |
| `Rejections.DigitsAreDecimal` | examples/hybrid-object-matching/src/core/parser.c:98-98 | Digits are the ASCII ones, most significant first. |
| `Rejections.TokenLength` | examples/hybrid-object-matching/src/core/parser.c:20-79 | A word of up to 63 characters is a token, a longer one is not. |
| `Rejections.CountBounds` | examples/hybrid-object-matching/src/core/parser.c:147-161 | A count from 0 to 1000000 is accepted, any other int is invalid. |
| `Rejections.SizeBounds` | examples/hybrid-object-matching/src/core/parser.c:197-208 | A size outside 1..46340 is invalid, before any element is read. |
| `Rejections.TruncatedIsMalformed` | examples/hybrid-object-matching/src/core/parser.c:163-265 | The tokens of any text that the grammar accepts, cut off anywhere before the last one needed, are malformed; with that one the result is that of the whole. |
| `Parsing.ExpectCount` | examples/hybrid-object-matching/src/core/parser.c:147-161 | Agrees with the grammar, in which a count outside 0..1000000 is invalid rather than malformed. |
| `Parsing.FillMatrix` | examples/hybrid-object-matching/src/core/parser.c:130-143 | The loop leaves in the array, element by element, what the grammar reads, and the lexer where the grammar stops; the first bad token decides the error. |
| `Parsing.FillEntries` | examples/hybrid-object-matching/src/core/parser.c:194-213 | The array loop leaves the pictures or objects that the grammar reads, or its first error. |
| `Parsing.ReadProblem` | examples/hybrid-object-matching/src/core/parser.c:163-265 | The whole reader, over a mutable lexer and arrays, computes the grammar's result on the text's tokens, error codes included. |
| `Format.ParsedIsLoaded` | examples/hybrid-object-matching/src/core/parser.c:163-265 | A parse fails only as malformed or invalid; once the grammar is met only a threshold that is not positive can fail it; what is parsed is loaded, with sides in 1..46340, full matrices and all numbers ints. |
| `Format.TrailingTokensIgnored` | examples/hybrid-object-matching/src/core/parser.c:251-256 | Whatever tokens follow a text that parses, well formed or over-long, the result is the same. |
| `Format.TrailingTextIgnored` | examples/hybrid-object-matching/src/core/parser.c:251-256 | Any text after a delimiter leaves the result of a text that parses unchanged. |
| `Format.TokensMore` | examples/hybrid-object-matching/src/core/parser.c:48-85 | Appending text after a delimiter only appends tokens. |
| `Printing.IntRoundTrip` | examples/hybrid-object-matching/src/core/parser.c:98-105 | Every int, printed in decimal, is one token and is read back as itself. |
| `Printing.ParseOfWords` | examples/hybrid-object-matching/src/core/parser.c:163-260 | The tokens of any problem within the parser's limits, with anything after them, parse to that problem with its objects stably sorted. |
| `Printing.LayoutTokens` | examples/hybrid-object-matching/src/core/parser.c:3-8 | With any whitespace and whole comments between the tokens, the tokens of the text are the words and those of what follows if and only if every gap but the first, and what follows the last word, starts with whitespace. |
| `Printing.HashInsideWord` | examples/hybrid-object-matching/src/core/parser.c:59-79 | A number with a comment directly after it is one token and is rejected as malformed. |
| `Printing.HashAfterBlank` | examples/hybrid-object-matching/src/core/parser.c:59-67 | With a blank between them the comment is skipped. |
| `Printing.LayoutRoundTrip` | examples/hybrid-object-matching/src/core/parser.c:3-8 | Printing any problem in any layout that keeps the tokens apart, with any text after it, and parsing it gives the problem back with its objects stably sorted by id. |
| `Printing.ReprintIsStable` | examples/hybrid-object-matching/src/core/parser.c:163-260 | Printing what was parsed and parsing it again changes nothing. |
| `Generator.LinesConcat` | examples/hybrid-object-matching/src/core/parser.c:48-85 | Texts made of whole lines read as one another's continuation: the tokens are concatenated, comments included. |
| `Generator.WriteMatrix` | examples/hybrid-object-matching/tools/gen_input.py:72-74 | Writes one indented line a row. |
| `Generator.MatrixLayout` | examples/hybrid-object-matching/tools/gen_input.py:72-74 | On a small matrix: two blanks, one row a line, a blank between values. |
| `Generator.OutputParses` | examples/hybrid-object-matching/tools/gen_input.py:110-126 | The generator's text, whatever its comment lines say, holds exactly the problem's tokens and parses to the problem validated. |
| `Generator.WriteProblem` | examples/hybrid-object-matching/tools/gen_input.py:108-126 | The output block, with its loops, writes that text, and so what it writes is read back as the problem. |
| `EndToEnd.TextDeterminesResults` | examples/hybrid-object-matching/include/msearch/runtime.h:1-5 | From a text that parses, every receiving rank gets the same problem, and every fault-free run on any ranks, backends and schedules ends with the canonical match of every picture in input order. |
| `Blocks.Partition` | examples/distributed-sum/main.c:60-78 | For every n and world size, every unit of [0, n) has exactly one owner and nothing else has one; shares differ by at most one and lead with the larger; with more ranks than units the first n ranks get one each. |
| `Blocks.Decompose` | examples/distributed-sum/main.c:70-78 | The loop's tables hold every rank's share and offset, narrowed to int. |
| `Blocks.TablesAreExact` | examples/matrix-multiply/main.c:87-96 | If all elements together are an int, narrowing the tables loses nothing and every block lies inside the array. |
| `Blocks.TablesAreExactIff` | examples/matrix-multiply/main.c:87-96 | The narrowed tables are exact if and only if the first share and the last offset, in elements, are ints. |
| `DistributedSum.FillSumsToClosed` | examples/distributed-sum/main.c:92-94 | The root's array sums to n(n+1)/2 exactly when n is an int; the cast makes it less otherwise. |
| `DistributedSum.LocalSum` | examples/distributed-sum/main.c:110-113 | The loop leaves what the 64-bit accumulator makes of the slice, wrap included. |
| `DistributedSum.AccumulatorIsExact` | examples/distributed-sum/main.c:110-113 | On any slice of the array the accumulator never wraps and holds the slice's sum. |
| `DistributedSum.AddLongWraps` | examples/distributed-sum/main.c:110-113 | The accumulator adds modulo 2^64. |
| `DistributedSum.Contribute` | examples/distributed-sum/main.c:97-113 | Decomposition, narrowed tables, slice and loop: what one rank hands to the reduction. |
| `DistributedSum.TreeSums` | examples/distributed-sum/main.c:115-116 | Any grouping of non-negative contributions whose total is a long long gives that total, with no overflow on the way. |
| `DistributedSum.RankCountNotObservable` | examples/distributed-sum/main.c:12-20 | For every n that is an int, every world size, and every order and grouping of what the ranks' 64-bit accumulators make of the slices cut by the narrowed tables, the root gets n(n+1)/2. |
| `MatrixMultiply.NoOverflow` | examples/matrix-multiply/main.c:51-54 | For every order whose square is an int, no partial sum of any entry leaves int. |
| `MatrixMultiply.StepKeepsInv` | examples/matrix-multiply/main.c:135-148 | Every step of every row's thread (one more term, or the store) keeps each row's finished entries and running sum right, and no row touches another's cells. |
| `MatrixMultiply.RunIsProduct` | examples/matrix-multiply/main.c:135-148 | Every finished schedule of the threads leaves the rank's rows of the product. |
| `MatrixMultiply.RunCompletes` | examples/matrix-multiply/main.c:135-148 | From every state of every schedule the rank's loop can finish, so finished schedules exist. |
| `MatrixMultiply.RunBounded` | examples/matrix-multiply/main.c:135-148 | No schedule is longer than one step for each term and each store: rows * n * (n + 1). |
| `MatrixMultiply.MultiplyRows` | examples/matrix-multiply/main.c:140-148 | The triple loop, with its int accumulator, leaves the rank's rows of the product. |
| `MatrixMultiply.FillOperands` | examples/matrix-multiply/main.c:119-124 | Rank 0's operands hold the fill functions of their indices. |
| `MatrixMultiply.FillCorners` | examples/matrix-multiply/main.c:55-63 | Both fills start at zero. |
| `MatrixMultiply.ANextRow` | examples/matrix-multiply/main.c:55-58 | A goes up by 1 modulo 7 from one row to the next. |
| `MatrixMultiply.ANextCol` | examples/matrix-multiply/main.c:55-58 | A goes up by 2 modulo 7 from one column to the next. |
| `MatrixMultiply.BNextRow` | examples/matrix-multiply/main.c:60-63 | B goes up by 3 modulo 5 from one row to the next. |
| `MatrixMultiply.BNextCol` | examples/matrix-multiply/main.c:60-63 | B goes up by 1 modulo 5 from one column to the next. |
| `MatrixMultiply.ScatterHolds` | examples/matrix-multiply/main.c:131-133 | Each rank receives exactly its own rows of A. |
| `MatrixMultiply.GatherIsProduct` | examples/matrix-multiply/main.c:150-151 | The gather puts every row of C back at its place. |
| `MatrixMultiply.ProductWhateverTheRanks` | examples/matrix-multiply/main.c:131-151 | For every order, world size and thread schedule on each rank, the gathered matrix is the product A x B. |
| `MatrixMultiply.CallsAreExactIff` | examples/matrix-multiply/main.c:87-96 | Whatever the number of ranks, the counts and displacements handed to MPI are exact if and only if n is at most 46340; so is the broadcast count by itself. |
| `MatrixMultiply.CountsGoWrong` | examples/matrix-multiply/main.c:131-131 | At n = 46341 the broadcast count is negative; at 65536 it is zero and B is not sent. |
| `MatrixMultiply.ProductsAreEqual` | examples/matrix-multiply/main.c:18-23 | A matrix with the product's entries is determined, so no two runs can differ. |
| `MatrixMultiply.CornerCheck` | examples/matrix-multiply/main.c:165-170 | The check fails exactly when the gathered corner is not the product's; MatrixMultiply.ProductWhateverTheRanks says that it always is. |

## Left out

- Kernels.Drain: schedules choose steps one at a time; memory orders weaker than reading some value the slot has held are not modelled.
- OpenMp.LowestMatchingPlacement: threads, chunk size and `resolve_thread_count` are not modelled, because every order of iterations is allowed.
- Kernels.RunSettles: the decision at each key is a table computed by the shared score beforehand; the instructions of the score inside a thread are not interleaved, since they read only data that no thread writes.
- MpiRuntime.RunResult: MPI transport, window locking and errors of MPI calls are not modelled; a record buffer that cannot be allocated is a failed start, as in the code.
- MpiRuntime.CompletesIffReserved: only the outcome of rank 0's allocation is modelled, not the memory; that no run completes without the buffers holds for collectives that synchronise, which MPI does not require of a gather.
- Problems.BroadcastReplicates: allocation failures and failing broadcasts are not modelled.
- Parsing.ReadProblem: allocation failures, opening the file, error messages and the warning about trailing tokens are not modelled.
- Parsing.ExpectInt: `strtol` is modelled by what it accepts, for tokens without leading whitespace, which the lexer never returns.
- Problems.Validate: the negative counts it rejects cannot be expressed, since counts are lengths; its warning about objects larger than every picture is not modelled.
- Generator.WriteProblem: the text after each `#` is arbitrary, so the notes' wording is not modelled; ids and sizes are arbitrary too, of which the generator's are a case.
- Planting.PlantedIsFound: random choices are replaced by all objects and in-range positions; in `late` mode the generator's range of positions can be empty.
- Runtime.CreateContext: the CPU backends' contexts carry no state worth modelling, only the allocation that can fail.
- Cuda.Create: the device properties, stream and buffers are calls that can fail, without further effect.
- Cuda.CudaContext.SearchPicture: any runtime call may fail; the text of the error, pinned memory and teardown are not modelled. After a failure the copies and kernels already queued on the stream may still run, since the source returns without synchronising; both runtimes stop using the context then, and the model says nothing of a context that is used again while such work is pending.
- DistributedSum.RankCountNotObservable: argument parsing, timing and printing are not modelled, nor what MPI does with negative counts when n is too large.
- MatrixMultiply.ProductWhateverTheRanks: the checksum, timing and printing are not modelled.
- Exact IEEE 754 values: which sums are finite or equal is left to the arithmetic.
- Command line, configuration, backend registry, logging, the result writer and `--verify`: parsing of flags and printing, with no property beyond the equalities above.
- Releasing memory after a failed array allocation, where the counts are already set (`src/core/problem.c:43-68`): these allocations are taken to succeed.
- `hello-mpi`, `ping-pong`, benchmarks, containers, job scripts and build files: no program state that would give a harder property.

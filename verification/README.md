# Phantom Tracker: verified model

Phantom Tracker tells an OpenMP guest how many of its vCPUs are *phantom*: preempted by the
host while they run an OpenMP thread. The guest publishes one bit per vCPU in shared memory.
The host's scheduler hook turns preemptions into a per-VM counter and a log of timestamped
samples. A 4 ms timer swaps the log's two buffers, averages the samples over time and
publishes a packed watermark that the guest reads.

This project models that protocol in Dafny and proves what it computes. Check it with
`dafny verify dfyconfig.toml`.

## How the model is built

- Concurrent code is a state machine. An action is one shared-memory access, one guest
  event, or one whole handler. The theorems range over every sequence of enabled actions.
- Code that updates state in place is a class or a method on an array, proved equal to the
  step function of the state machine.
- Machine words are explicit: `AsU32`, `AsU64` and `AsS64` wrap where C wraps.
- Clock values, run-queue sums, allocation results and slot reads are inputs.

| module | models |
|---|---|
| `PhantomCounter` | flags, clamped counter and retry loops, access by access on many pCPUs |
| `HandlerAtomicity` | the access-by-access handler against the handler as one step |
| `SampleBuffers` | the double buffer and its six-operation swap |
| `WeightedAverage` | the sample callback and the average, in 64-bit arithmetic |
| `SampleIntegral` | what a weighted sum means: the integral of a step function |
| `PhantomWindow` | one VM end to end: events, samples, ticks, true mean |
| `IdleTracker` | the host-wide running and idle averages |
| `GuestRunState` | the guest's OpenMP thread map and run-state slots |
| `HostGuest`, `GuestPage` | host and guest together; the guest's slots in the shared bytes |
| `ShmemLayout`, `SharedMemory` | region size, header, slots and their byte-level accesses |
| `HistoryRing`, `Watermark` | the ring of published words and their packing |
| `Publication` | from scheduler events to the bytes the guest reads |
| `VmKeys`, `VmRegistration` | map keys, registration and cleanup |
| `LinkedList`, `QmpReply` | extraction of the vCPU list from a QMP reply |
| `VmIds` | allocation of VM ids |

## Where the code departs from what is said about it

- `pvsched-ebpf/README.md:81-83` says a vCPU that sleeps voluntarily is not phantom. The
  handler loads the previous task's state only when the incoming task is a vCPU
  (`create_maps.bpf.c:98,116,222`), so otherwise a sleeper is flagged too.
  `SleeperIsFlagged` is an input and `PreemptionRuleIff` the exact condition.
- Kernel and userspace build the same map key only up to 61 characters (`KeysAgreeIff`);
  beyond that a VM's two userspace keys coincide and name one array (`SetUpStores`).
  Cleanup recognises its own entries only up to 63 (`CleanupFindsOwnIff`).
- 63 does not divide 2^32, so each wrap of the u32 cursor after the first lap costs the ring
  its order for the next 62 writes; then the order returns (`RingInOrderIff`). One such state
  is `OrderLostAtWrap`. The two cursors agree only in every 63rd lap (`CursorsAgreeIff`).
- A failed backend creation gives back an id by decrementing the counter, whatever id it
  held. That is safe exactly under the condition of `RollbackSafeIff`; `RollbackCanDuplicate`
  and `OvershootCanDuplicate` are inputs for its two ways to fail.
- A region registered with no vCPUs has no room for the slots that the index checks admit
  (`SlotsFitIffVcpus`).
- The host's kernel functions always use the first registered VM (`host_ivshmem.c:194-206`),
  so `HostGuest` is about one VM.

## Model

| member | source | states |
|---|---|---|
| `PhantomWindow.TickAveragesTrueCount` | pvsched-ebpf/host/ebpf/timer/timer.bpf.c:271-319 | In every run of switch and tick steps under a monotone clock, if nb_vcpus times the length is below 2^64 and the window has fewer than 2^32 samples, the average a tick publishes is the floor of (the true counter summed over every nanosecond from the first sample to the last one read) divided by that length, and lies in 0..nb_vcpus; without array overflow the last sample read is the tick's own |
| `PhantomWindow.TickInRange` | pvsched-ebpf/host/ebpf/timer/timer.bpf.c:113-154 | In every run, with samples in order or not and overflowing or not, the average lies in 0..nb_vcpus as long as nb_vcpus times the accumulated time is below 2^64 |
| `PhantomWindow.RunWithin` | pvsched-ebpf/host/ebpf/create_maps/create_maps.bpf.c:177-181 | In every run, whatever the clock does, both arrays hold only counts in 0..nb_vcpus |
| `PhantomWindow.RunRefines` | pvsched-ebpf/host/ebpf/create_maps/create_maps.bpf.c:129-197 | After any run the counter is the reference counter and the two arrays hold exactly the reference windows, at any array capacity |
| `PhantomWindow.WindowTellsTheCount` | pvsched-ebpf/host/ebpf/create_maps/create_maps.bpf.c:174-181 | Read as a step function, the samples of the open window give the true counter at every instant since the window started |
| `SampleIntegral.WeightedSumIsIntegral` | pvsched-ebpf/host/ebpf/timer/timer.bpf.c:120-128 | On ordered samples the fast weighted sum is the nanosecond-by-nanosecond sum of the step function they describe, negative counts read as 0 |
| `SampleIntegral.SortedMean` | pvsched-ebpf/host/ebpf/timer/timer.bpf.c:139-154 | On ordered samples whose product bound is below 2^64, the machine average is the floor of the mean of that step function |
| `SampleIntegral.StepCountPrefix` | pvsched-ebpf/host/ebpf/timer/timer.bpf.c:102-111 | Cutting an ordered window at the array's end does not change the step function before the cut |
| `PhantomWindow.ClosedSumIsTrueIntegral` | pvsched-ebpf/host/ebpf/timer/timer.bpf.c:95-131 | The weighted sum of a closed window is the integral of the true counter over the time it covers |
| `PhantomWindow.CoveredSum` | pvsched-ebpf/host/ebpf/timer/timer.bpf.c:106-128 | The same for the part of an overflowing window that fits the array |
| `PhantomWindow.CoveredMean` | pvsched-ebpf/host/ebpf/timer/timer.bpf.c:139-154 | Under the product bound the 64-bit average of the covered part is the true mean of the counter and never exceeds nb_vcpus |
| `PhantomWindow.PlausibleMean` | pvsched-ebpf/host/ebpf/timer/timer.bpf.c:148-153 | The mixed signed/unsigned division is the mathematical one on ordered, bounded samples, and gives 0 on an empty span |
| `PhantomWindow.TickIsCoveredMean` | pvsched-ebpf/host/ebpf/timer/timer.bpf.c:277-319 | The value a tick computes from the raw arrays is the average of the window it closes |
| `PhantomWindow.ExecSplits` | pvsched-ebpf/host/ebpf/create_maps/create_maps.bpf.c:88-314 | Running two stretches of events one after the other is running their concatenation |
| `PhantomWindow.PreemptionRuleIff` | pvsched-ebpf/host/ebpf/create_maps/create_maps.bpf.c:210-223 | The outgoing vCPU is flagged exactly for the preempted states if and only if the incoming task is a vCPU or the state was a preempted one |
| `PhantomWindow.SleeperIsFlagged` | pvsched-ebpf/README.md:81-83 | Concrete input against the documented rule: a vCPU that goes to sleep for a non-vCPU task is flagged |
| `PhantomWindow.HandlerFlags` | pvsched-ebpf/host/ebpf/create_maps/create_maps.bpf.c:103-223 | A handler moves at most two flags: the incoming thread's drops and the outgoing preempted one's rises, each if its guest slot reads 1; indices and names stay |
| `PhantomWindow.SwitchEventsTell` | pvsched-ebpf/host/ebpf/create_maps/create_maps.bpf.c:129-297 | What a handler does to the counter and when: until the incoming half's clock read its old value, from there one less if a flag of this VM dropped, from the outgoing half's clock read one more if one was raised, within 0..nb_vcpus |
| `PhantomWindow.SwitchEventsOrdered` | pvsched-ebpf/host/ebpf/create_maps/create_maps.bpf.c:177-297 | A handler whose clock reads are in order leaves the log in order |
| `PhantomWindow.SwitchEventsAreFlagMoves` | pvsched-ebpf/host/ebpf/create_maps/create_maps.bpf.c:118-297 | The samples a handler logs are one for each flag of this VM that moved, each with its own half's clock read |
| `PhantomWindow.PhantomVm.constructor` | pvsched-ebpf/host/include/register_vm.h:92-101 | A registered VM starts at the initial tracker state |
| `PhantomWindow.PhantomVm.UpdateAndLog` | pvsched-ebpf/host/ebpf/create_maps/create_maps.bpf.c:129-197 | One clamped counter update followed by one sample in the active array is one event of the reference run |
| `PhantomWindow.PhantomVm.SwitchHandler` | pvsched-ebpf/host/ebpf/create_maps/create_maps.bpf.c:88-314 | The handler changes exactly the flags the rule allows and runs exactly the counter events those flips stand for |
| `PhantomWindow.PhantomVm.TimerTick` | pvsched-ebpf/host/ebpf/timer/timer.bpf.c:271-319 | A tick swaps the arrays as the reference run does and returns its average |
| `PhantomCounter.CounterInEveryInterleaving` | pvsched-ebpf/host/ebpf/create_maps/create_maps.bpf.c:118-129 | In every interleaving of single accesses on any number of pCPUs, 0 <= phantom_count <= nb_vcpus, and the counter is flagged - pending increments + pending decrements - missed increments + missed decrements |
| `PhantomCounter.NoDriftWithoutExhaustion` | pvsched-ebpf/host/ebpf/create_maps/create_maps.bpf.c:45-81 | With at most nb_vcpus registered vCPUs and no exhausted retry loop, nothing is ever missed, so the counter is flagged - pending increments + pending decrements |
| `PhantomCounter.ExhaustionNeedsWrites` | pvsched-ebpf/host/ebpf/create_maps/create_maps.bpf.c:47-57 | In every interleaving a loop is exhausted only if at least 24 accesses changed that counter; so with fewer writes and room for every vCPU the counter is exact |
| `PhantomCounter.LoopsArePaid` | pvsched-ebpf/host/ebpf/create_maps/create_maps.bpf.c:47-56 | In every reachable state each try a running loop has lost is matched by a write to its counter |
| `PhantomCounter.ExactAtRest` | pvsched-ebpf/host/ebpf/create_maps/create_maps.bpf.c:88-314 | With no handler running the counter equals the number of flagged vCPUs if and only if missed increments and decrements are equally many |
| `PhantomCounter.NoClamp` | pvsched-ebpf/host/ebpf/create_maps/create_maps.bpf.c:49-51 | From a state without misses neither clamp fires; only an exhausted loop can cause the first miss |
| `PhantomCounter.RunKeepsInv` | pvsched-ebpf/host/ebpf/create_maps/create_maps.bpf.c:88-314 | Every reachable state keeps the handler shape, the counter range and the balance of every VM |
| `PhantomCounter.StepKeepsInv` | pvsched-ebpf/host/ebpf/create_maps/create_maps.bpf.c:88-314 | One access on one pCPU keeps that invariant |
| `PhantomCounter.StepKeepsShape` | pvsched-ebpf/host/ebpf/create_maps/create_maps.bpf.c:103-311 | One access keeps every handler's private state consistent with flags and registration, and keeps a vCPU on one pCPU |
| `PhantomCounter.StepKeepsBalance` | pvsched-ebpf/host/ebpf/create_maps/create_maps.bpf.c:118-129 | One access keeps every counter in range and equal to the vCPUs that count, corrected by the misses |
| `PhantomCounter.OwnerDelta` | pvsched-ebpf/host/ebpf/create_maps/create_maps.bpf.c:221-230 | A step changes the counter by exactly the change in whether its own vCPU counts |
| `PhantomCounter.CountedIsFlaggedAdjusted` | pvsched-ebpf/host/ebpf/create_maps/create_maps.bpf.c:118-129 | The vCPUs that count are the flagged ones without pending increments plus those with pending decrements |
| `PhantomCounter.InitInv` | pvsched-ebpf/host/include/register_vm.h:96-101 | A freshly registered state satisfies the invariant |
| `PhantomCounter.RunLoopDecided` | pvsched-ebpf/host/ebpf/create_maps/create_maps.bpf.c:47-57 | A retry loop is decided by its first attempt that is not a lost race, and exhausted if and only if all 24 are |
| `PhantomCounter.Deciding` | pvsched-ebpf/host/ebpf/create_maps/create_maps.bpf.c:47-56 | Finds the first attempt that is not a lost race: all earlier ones are, it is not |
| `PhantomCounter.AtomicDecIfPos` | pvsched-ebpf/host/ebpf/create_maps/create_maps.bpf.c:45-58 | Returns the decremented value of the first undisturbed attempt, the value seen at the clamp, or a fresh read after 24 lost races; never writes a negative value |
| `PhantomCounter.AtomicIncIfLtCeil` | pvsched-ebpf/host/ebpf/create_maps/create_maps.bpf.c:67-81 | The same upwards; never writes a value above the ceiling |
| `HandlerAtomicity.UninterruptedHandlerIsAtomic` | pvsched-ebpf/host/ebpf/create_maps/create_maps.bpf.c:88-314 | Entered at rest and run alone, the access-by-access handler ends with the flags and every VM's counter of the handler taken as one step |
| `HandlerAtomicity.HalvesAlone` | pvsched-ebpf/host/ebpf/create_maps/create_maps.bpf.c:103-311 | Run alone, the incoming half then the outgoing half end in the state of the two halves as steps |
| `HandlerAtomicity.HalvesAreEvents` | pvsched-ebpf/host/ebpf/create_maps/create_maps.bpf.c:118-230 | The two halves make the counter events and flag flips of the whole-handler model, in that order |
| `SampleBuffers.BuffersRefineWindows` | pvsched-ebpf/host/ebpf/timer/timer.bpf.c:277-319 | With the tick split into its six operations and whole switch handlers anywhere between, the two arrays always hold the open, opening and retired windows |
| `SampleBuffers.StepRefines` | pvsched-ebpf/host/ebpf/timer/timer.bpf.c:277-317 | Each single operation keeps that relation |
| `SampleBuffers.AppendRefines` | pvsched-ebpf/host/ebpf/create_maps/create_maps.bpf.c:168-197 | A handler's append lands in the window the flag selects, and is dropped only when the array is full |
| `SampleBuffers.WriteStartRefines` | pvsched-ebpf/host/ebpf/timer/timer.bpf.c:280-284 | Writing the start sample keeps the relation, leaves the active array alone and changes only element 0 of the other |
| `SampleBuffers.RetiredReceivesOnlyEnd` | pvsched-ebpf/host/ebpf/timer/timer.bpf.c:287-293 | From the flip to the average, with handlers anywhere in between, the retired array changes by exactly one store: the end sample at the index reserved for it |
| `SampleBuffers.WriteEndRefines` | pvsched-ebpf/host/ebpf/timer/timer.bpf.c:290-293 | Writing the end sample keeps the relation |
| `SampleBuffers.AverageReadsOnlyItsWindow` | pvsched-ebpf/host/ebpf/timer/timer.bpf.c:95-111 | Every entry the average reads was written in the window being closed, at its own position, even after an overflow |
| `SampleBuffers.EverySampleInOneWindow` | pvsched-ebpf/host/ebpf/create_maps/create_maps.bpf.c:174-196 | The arrays hold windows which, laid end to end, are exactly the appended samples in order: none lost, none in two windows |
| `SampleBuffers.StepKeepsSamples` | pvsched-ebpf/host/ebpf/create_maps/create_maps.bpf.c:174-196 | One operation on the arrays adds exactly the appended sample to exactly one of the windows they hold |
| `SampleBuffers.AverageIsOfWindow` | pvsched-ebpf/host/ebpf/timer/timer.bpf.c:319 | The average computed from the retired array is the average of the retired window's covered samples |
| `SampleBuffers.TimeIsOfWindow` | pvsched-ebpf/host/ebpf/idle_avg/global_running_tracker.bpf.c:198-207 | The total time accumulated from the retired array is that of the covered samples |
| `SampleBuffers.ClosingRefines` | pvsched-ebpf/host/ebpf/timer/timer.bpf.c:277-317 | A whole tick closes the open window with the end sample and opens the next with the start sample |
| `SampleBuffers.StoreHolds` | pvsched-ebpf/host/ebpf/create_maps/create_maps.bpf.c:180-181 | A map update at the wrapped index stores the sample where the window expects it or, past the end, nothing |
| `SampleBuffers.TrackerBuffers.constructor` | pvsched-ebpf/host/include/register_vm.h:98-100 | Both indices 0 and collection in buffer 2 |
| `SampleBuffers.TrackerBuffers.RecordSample` | pvsched-ebpf/host/ebpf/create_maps/create_maps.bpf.c:168-197 | In-place append is the append step |
| `SampleBuffers.TrackerBuffers.BeginTick` | pvsched-ebpf/host/ebpf/timer/timer.bpf.c:271-282 | In-place write of the start sample is its step |
| `SampleBuffers.TrackerBuffers.ResetIndex` | pvsched-ebpf/host/ebpf/timer/timer.bpf.c:284 | In-place index reset is its step |
| `SampleBuffers.TrackerBuffers.FlipActive` | pvsched-ebpf/host/ebpf/timer/timer.bpf.c:287 | The flip is its step |
| `SampleBuffers.TrackerBuffers.ReserveEndIndex` | pvsched-ebpf/host/ebpf/timer/timer.bpf.c:290-291 | Reserving the end index is its step |
| `SampleBuffers.TrackerBuffers.WriteEndSample` | pvsched-ebpf/host/ebpf/timer/timer.bpf.c:292-293 | Writing the end sample is its step |
| `SampleBuffers.TrackerBuffers.SwapAndAverage` | pvsched-ebpf/host/ebpf/timer/timer.bpf.c:277-319 | The whole swap leaves both arrays as the steps do and returns the average of the retired one |
| `WeightedAverage.PhantomAverage` | pvsched-ebpf/host/ebpf/timer/timer.bpf.c:139-154 | The callback loop over the array, wrapping as C does, computes the machine average of its contents |
| `WeightedAverage.CallbackFolds` | pvsched-ebpf/host/ebpf/timer/timer.bpf.c:95-131 | One callback moves both wrapped accumulators from the first k samples to the first k + 1, whichever guard it leaves through |
| `WeightedAverage.TotalTimeTelescopes` | pvsched-ebpf/host/ebpf/timer/timer.bpf.c:113-128 | For every array, ordered or not, total_time is last minus first timestamp plus all dropped backward jumps |
| `WeightedAverage.NothingDroppedIffForward` | pvsched-ebpf/host/ebpf/timer/timer.bpf.c:116-118 | Nothing is dropped if and only if the timestamps are in order |
| `WeightedAverage.SortedWindowLength` | pvsched-ebpf/host/ebpf/timer/timer.bpf.c:125-128 | On ordered samples total_time is the window length |
| `WeightedAverage.NegativeCountsWeighNothing` | pvsched-ebpf/host/ebpf/timer/timer.bpf.c:120-123 | Replacing every negative count by 0 changes neither sum |
| `WeightedAverage.SumBetween` | pvsched-ebpf/host/ebpf/timer/timer.bpf.c:120-127 | The sum lies between the smallest and the largest contributing clamped count times total_time |
| `WeightedAverage.MeanBetween` | pvsched-ebpf/host/ebpf/timer/timer.bpf.c:148-153 | The average lies between those counts, and is 0 if total_time is 0 |
| `WeightedAverage.AccumulatorsDoNotWrap` | pvsched-ebpf/host/ebpf/timer/timer.bpf.c:127-128 | If count bound times total_time is below 2^63, neither accumulator wraps at any point of the loop |
| `WeightedAverage.MachineMeanExact` | pvsched-ebpf/host/ebpf/timer/timer.bpf.c:148-149 | If it is below 2^64, the machine average is the mathematical one and at most the count bound, even where the signed sum has wrapped |
| `WeightedAverage.MachineMeanReadsPrefix` | pvsched-ebpf/host/ebpf/timer/timer.bpf.c:102-111 | The average depends only on the entries up to and including the end sample |
| `WeightedAverage.SumsReadPrefix` | pvsched-ebpf/host/ebpf/timer/timer.bpf.c:102-111 | So do both sums |
| `IdleTracker.ConsecutiveWindows` | pvsched-ebpf/host/ebpf/idle_avg/global_running_tracker.bpf.c:174-198 | The total times of consecutive non-overflowing windows add up exactly to last boundary minus first boundary |
| `IdleTracker.ClosedWindowsCoverTime` | pvsched-ebpf/host/ebpf/idle_avg/global_running_tracker.bpf.c:174-198 | All time up to the current window start has been accounted for, once |
| `IdleTracker.ElapsedAtBoundary` | pvsched-ebpf/host/ebpf/idle_avg/global_running_tracker.bpf.c:174-198 | At a boundary the accumulated time is the time since the first event |
| `IdleTracker.PublishedPairIsComplete` | pvsched-ebpf/host/ebpf/idle_avg/global_running_tracker.bpf.c:206-211 | After any tick, last_idle_avg + min(global_runnx_avg, nb_cpus) = nb_cpus |
| `IdleTracker.RunningAverageIsMean` | pvsched-ebpf/host/ebpf/idle_avg/global_running_tracker.bpf.c:174-209 | Under a monotone clock and a product bound below 2^64, global_runnx_avg is the floor of the mean of the sampled run-queue count over every nanosecond from the previous boundary to the last sample read, which is the boundary itself unless the array overflowed |
| `IdleTracker.WindowTellsTheCount` | pvsched-ebpf/host/ebpf/idle_avg/global_running_tracker.bpf.c:137-143 | Read as a step function, the open window gives the last sampled count at every instant since it started |
| `IdleTracker.CoveredTellsTheCount` | pvsched-ebpf/host/ebpf/idle_avg/global_running_tracker.bpf.c:76-85 | So does the part of the closing window that fits the array, up to its last sample |
| `IdleTracker.CutReadsWindow` | pvsched-ebpf/host/ebpf/idle_avg/global_running_tracker.bpf.c:174-198 | What the callback adds up and averages is exactly the covered samples of the window it closes |
| `IdleTracker.CutAccumulates` | pvsched-ebpf/host/ebpf/idle_avg/global_running_tracker.bpf.c:70-104 | Closing an ordered window accumulates the time from its first sample to the boundary |
| `IdleTracker.RunFollows` | pvsched-ebpf/host/ebpf/idle_avg/global_running_tracker.bpf.c:137-143 | In every run, whatever the clock does, the open window holds exactly the samples taken since the last boundary, in order, the boundary first |
| `IdleTracker.ExecLogs` | pvsched-ebpf/host/ebpf/idle_avg/global_running_tracker.bpf.c:111-146 | The published averages never influence the buffers |
| `IdleTracker.RunningTracker.constructor` | pvsched-ebpf/host/ebpf/idle_avg/global_running_tracker.bpf.c:45-50 | Starts at the initial state |
| `IdleTracker.RunningTracker.SwitchHandler` | pvsched-ebpf/host/ebpf/idle_avg/global_running_tracker.bpf.c:111-146 | In-place sampling is the event it stands for |
| `IdleTracker.RunningTracker.TimerCallback` | pvsched-ebpf/host/ebpf/idle_avg/global_running_tracker.bpf.c:148-218 | In-place swap, average and publication are the boundary event |
| `GuestRunState.SlotIffOpenMpSinceSwitchIn` | pvsched-ebpf/guest/omp_thread_reg.bpf.c:36-149 | Over every run of registrations, switches, migrations, exits and execs, a CPU's slot reads 1 exactly when its current task has been an OpenMP thread continuously since it was switched in, and 0 otherwise; being one is defined on the events: registered, while the map had room, since its last exit or exec |
| `GuestRunState.ThreadIffRegistered` | pvsched-ebpf/guest/omp_thread_reg.bpf.c:36-91 | In runs too short to fill the map, a thread is one exactly if some event registered it and no later event is its exit or exec |
| `GuestRunState.RunFollowsEvents` | pvsched-ebpf/guest/omp_thread_reg.bpf.c:36-149 | In every run the thread map holds exactly those threads, and each CPU's current task is the one last switched in |
| `GuestRunState.RegisterTracks` | pvsched-ebpf/guest/omp_thread_reg.bpf.c:36-65 | Registering tracks the current thread under its CPU unless the map is full |
| `GuestRunState.PublishedThreadIsTracked` | pvsched-ebpf/guest/omp_thread_reg.bpf.c:66-91 | A 1 never outlives a tracked thread |
| `GuestRunState.RunKeepsInv` | pvsched-ebpf/guest/omp_thread_reg.bpf.c:36-149 | No thread is current on two CPUs and the page keeps its size, in every run |
| `GuestRunState.OtherCpusUntouched` | pvsched-ebpf/guest/omp_thread_reg.bpf.c:78-91 | No event changes another CPU's slot, nor untracks the thread running there |
| `GuestRunState.OwnCpu` | pvsched-ebpf/guest/omp_thread_reg.bpf.c:122-149 | A switch leaves the slot telling whether the new task is tracked; exit and exec leave it 0; registration leaves it alone |
| `GuestRunState.OmpThreads.constructor` | pvsched-ebpf/guest/omp_thread_reg.bpf.c:24-29 | Starts with an empty thread map and zeroed slots |
| `GuestRunState.OmpThreads.G2hWrite` | pvsched-shmem/guest/guest_ivshmem.c:264-306 | Writes one slot, and nothing past the page |
| `GuestRunState.OmpThreads.CaptureOmpThread` | pvsched-ebpf/guest/omp_thread_reg.bpf.c:36-65 | In-place registration is its event |
| `GuestRunState.OmpThreads.RemoveCurrentTid` | pvsched-ebpf/guest/omp_thread_reg.bpf.c:78-91 | In-place removal is its event |
| `GuestRunState.OmpThreads.HandleSwitch` | pvsched-ebpf/guest/omp_thread_reg.bpf.c:122-149 | The two slot writes are the switch event, the 0 before the 1 |
| `HostGuest.PhantomIsOffWithSlotOne` | pvsched-ebpf/host/ebpf/create_maps/create_maps.bpf.c:210-223 | In every reachable state of host and guest together, a phantom vCPU is running on no pCPU and its slot still reads 1 |
| `HostGuest.SwitchInClearsFlag` | pvsched-ebpf/host/ebpf/create_maps/create_maps.bpf.c:103-119 | Past its flag access, a handler switching a vCPU in has always cleared that vCPU's flag |
| `HostGuest.CounterCountsStalledVcpus` | pvsched-ebpf/host/ebpf/create_maps/create_maps.bpf.c:118-230 | At rest and without exhausted loops, phantom_count is the number of flagged vCPUs, each one off every pCPU with a tracked OpenMP thread current inside |
| `HostGuest.FlaggedIsStalled` | pvsched-ebpf/guest/omp_thread_reg.bpf.c:122-149 | A flagged vCPU holds a tracked OpenMP thread and runs nowhere |
| `HostGuest.JointRunProjects` | pvsched-ebpf/host/ebpf/create_maps/create_maps.bpf.c:88-314 | A joint run projects to a run of the host model and a run of the guest model |
| `HostGuest.RunKeepsInv` | pvsched-ebpf/host/ebpf/create_maps/create_maps.bpf.c:88-314 | The joint invariant holds in every reachable state |
| `HostGuest.StepKeepsInv` | pvsched-ebpf/host/ebpf/create_maps/create_maps.bpf.c:88-314 | Each host access and each guest event keeps it |
| `HostGuest.HostKeepsInStep` | pvsched-ebpf/host/ebpf/create_maps/create_maps.bpf.c:103-223 | Host accesses keep flags and slots in step |
| `HostGuest.GuestKeepsInStep` | pvsched-ebpf/guest/omp_thread_reg.bpf.c:122-149 | Guest events keep them in step, since a vCPU that is off executes no guest event |
| `GuestPage.HostReadsRunState` | pvsched-shmem/host/host_ivshmem.c:169-188 | For every guest run, with any host accesses in between, a host read of the bytes of slot i returns 1 if guest CPU i's task has been an OpenMP thread since it was switched in, else 0, and is what the joint model reads |
| `GuestPage.RunStatesAreWritten` | pvsched-shmem/guest/guest_ivshmem.c:291-300 | The run states in the page are what the guest's writes alone leave |
| `GuestPage.RunIsWritten` | pvsched-ebpf/guest/omp_thread_reg.bpf.c:78-149 | A guest run's slots are what its writes leave, in their order |
| `GuestPage.EventWritten` | pvsched-ebpf/guest/omp_thread_reg.bpf.c:122-149 | One guest event changes the slots by its writes: 0 for a tracked task that leaves, then 1 for a tracked task that enters |
| `ShmemLayout.BackendSizeSound` | pvsched-shmem/host/host_ivshmem.c:319-328 | For every nb_cpu the size is a power of two, at least two pages and a message for each vCPU, below twice that, and no intermediate overflows its C type |
| `ShmemLayout.BackendSizeLeast` | pvsched-shmem/host/host_ivshmem.c:319-328 | It is the least power of two that holds those bytes |
| `ShmemLayout.PagesAreFewest` | pvsched-shmem/host/host_ivshmem.c:319-321 | The pages taken are the fewest that hold them |
| `ShmemLayout.RoundupPow2Least` | pvsched-shmem/host/host_ivshmem.c:328 | Rounding gives the least power of two not below its argument, under twice it |
| `ShmemLayout.FlsBounds` | pvsched-shmem/host/host_ivshmem.c:328 | Bounds on the bit length behind the rounding |
| `ShmemLayout.LayoutAgrees` | pvsched-shmem/host/host_ivshmem.c:377-388 | Metadata, H2G and G2H partition the region exactly, G2H holds nb_cpu messages, and the guest checks accept every header the host writes |
| `ShmemLayout.ProbeAcceptsIff` | pvsched-shmem/guest/guest_ivshmem.c:405-470 | Unless the u64 sum wraps, the guest accepts exactly the headers with the right magic and version, H2G right behind the metadata page, and G2H inside the BAR |
| `ShmemLayout.SlotsFitIffVcpus` | pvsched-shmem/host/host_ivshmem.c:178-186 | All slots an index check admits lie inside the region if and only if nb_cpu >= 1 |
| `ShmemLayout.MmapStaysBelowG2h` | pvsched-shmem/guest/guest_ivshmem.c:156-165 | Every accepted guest mapping stays below the G2H region, wrapping shifts included |
| `ShmemLayout.MmapAcceptsIff` | pvsched-shmem/guest/guest_ivshmem.c:156-165 | Without wrapping, exactly the mappings inside the metadata and H2G pages are accepted |
| `SharedMemory.HostReadsLastGuestWrite` | pvsched-shmem/host/host_ivshmem.c:169-188 | After any sequence of host and guest writes a host read of i returns the guest's last write to i (0 before the first), the header still passes the probe, and accepted mappings stay below G2H |
| `SharedMemory.MemoryRefinesView` | pvsched-shmem/host/host_ivshmem.c:135-188 | The flat bytes refine a record of header, latest message, history and run states, over every sequence of operations |
| `SharedMemory.OpRefines` | pvsched-shmem/host/host_ivshmem.c:135-161 | One operation changes the record as specified and nothing else |
| `SharedMemory.RunStatesAreLastWrites` | pvsched-shmem/guest/guest_ivshmem.c:291-300 | Each run-state slot holds the last guest write to it; the header never changes |
| `SharedMemory.PutH2g` | pvsched-shmem/host/host_ivshmem.c:151-158 | A word written to an H2G slot changes that message only |
| `SharedMemory.PutG2h` | pvsched-shmem/guest/guest_ivshmem.c:291-300 | A word written to a G2H slot changes that run state only |
| `SharedMemory.CreatedReady` | pvsched-shmem/host/host_ivshmem.c:372-388 | A new backend is ready for both sides and carries the host header |
| `SharedMemory.CreatedIsBlank` | pvsched-shmem/host/host_ivshmem.c:372-388 | All its slots read 0 |
| `SharedMemory.HeaderRoundTrip` | pvsched-shmem/guest/guest_ivshmem.c:440 | The header the host stores is the header the guest copies out |
| `SharedMemory.HeaderSlices` | pvsched-shmem/host/host_ivshmem.c:377-388 | Each header field is stored at its own offset |
| `SharedMemory.GetPut` | pvsched-shmem/host/host_ivshmem.c:157 | A stored word reads back, and disjoint words are unaffected |
| `SharedMemory.WordOfBytes` | pvsched-shmem/host/host_ivshmem.c:157 | Little-endian bytes of a word decode to it |
| `SharedMemory.Backend.constructor` | pvsched-shmem/host/host_ivshmem.c:372-388 | Allocates and formats the region |
| `SharedMemory.WriteHeader` | pvsched-shmem/host/host_ivshmem.c:377-388 | Writes the header bytes over zeroed memory and leaves the rest zero |
| `SharedMemory.H2gWriteMsg` | pvsched-shmem/host/host_ivshmem.c:135-161 | Refuses a missing backend, a null message, slot 0 and out-of-range slots with the right errors; otherwise performs the host write |
| `SharedMemory.G2hRead` | pvsched-shmem/host/host_ivshmem.c:169-188 | Refuses a missing backend, an out-of-range slot and a null buffer with the right errors; otherwise returns the slot's word |
| `SharedMemory.Probe` | pvsched-shmem/guest/guest_ivshmem.c:403-495 | Publishes a device if and only if the BAR holds the metadata page, the region and both mappings are granted and the header passes every check |
| `SharedMemory.G2hWriteMsg` | pvsched-shmem/guest/guest_ivshmem.c:264-306 | Refuses in the source's order, message and index before device before mapping; otherwise performs the guest write |
| `SharedMemory.WriteWord` | pvsched-shmem/host/host_ivshmem.c:157-158 | In-place store of one word |
| `SharedMemory.ReadWord` | pvsched-shmem/host/host_ivshmem.c:186 | Read of one word |
| `HistoryRing.RingInOrderIff` | pvsched-ebpf/host/ebpf/timer/timer.bpf.c:165-171 | Given different messages, after n writes the history holds each of the last min(n, 63) in the slot it was written to if and only if n <= 2^32, or n mod 2^32 is 0 or at least 63: every later wrap costs the order for the 62 writes after it |
| `HistoryRing.RecentSlotsDistinctIff` | pvsched-ebpf/host/ebpf/timer/timer.bpf.c:165-171 | The last 63 writes went to pairwise different slots under exactly that condition |
| `HistoryRing.CollisionAtWrap` | pvsched-ebpf/host/ebpf/timer/timer.bpf.c:167-170 | Otherwise, at the wrap w, writes w - 1 and w + 3, or w - 4 and w, went to one slot |
| `HistoryRing.RingIsLastMessages` | pvsched-shmem/host/host_ivshmem.c:148-158 | Whenever that condition holds, the history is the last min(n, 63) messages, slot 0 mirrors the newest, and unused slots, run states and header are untouched |
| `HistoryRing.RingHoldsLast` | pvsched-ebpf/host/ebpf/timer/timer.bpf.c:165-171 | Message j stays in its slot as long as no later write goes there |
| `HistoryRing.SlotHoldsLastWriter` | pvsched-shmem/host/host_ivshmem.c:157 | A slot once written holds the message of a write to it, and none older than the one in question |
| `HistoryRing.ModuloSlot` | pvsched-ebpf/host/ebpf/timer/timer.bpf.c:165-171 | The slot is always a legal history slot, before and after wrap, so no write is refused |
| `HistoryRing.ClampCycles` | pvsched-ebpf/host/h2g_msg_timer/h2g_msg_timer.bpf.c:43-49 | The increment-then-clamp cursor cycles through the history slots in order |
| `HistoryRing.CursorsAgreeIff` | pvsched-ebpf/host/h2g_msg_timer/h2g_msg_timer.bpf.c:43-49 | Modulo and clamp cursors give the same slot if and only if the number of completed 2^32 laps is a multiple of 63 |
| `HistoryRing.LapShift` | pvsched-ebpf/host/ebpf/timer/timer.bpf.c:167-168 | Each u32 lap shifts the modulo sequence by four slots |
| `HistoryRing.OrderLostAtWrap` | pvsched-ebpf/host/ebpf/timer/timer.bpf.c:165-171 | Concrete case: one write past the first wrap, a message older than the last 63 survives in slot 5 |
| `HistoryRing.Cursors.constructor` | pvsched-ebpf/host/ebpf/timer/timer.bpf.c:165-171 | Both cursors start at 0 |
| `HistoryRing.Cursors.NextHistorySlot` | pvsched-ebpf/host/ebpf/timer/timer.bpf.c:165-171 | Call n returns slot n of the modulo sequence |
| `HistoryRing.Cursors.AdvanceClamped` | pvsched-ebpf/host/h2g_msg_timer/h2g_msg_timer.bpf.c:43-49 | Call n returns slot n of the clamp sequence |
| `Watermark.PublishedWatermarkDecodes` | pvsched-ebpf/host/ebpf/timer/timer.bpf.c:188-198 | For every run of both trackers, in order or not, with nb_vcpus and nb_cpus below 65536 and nb_vcpus times the tick's accumulated time below 2^64, the published word decodes to (ts mod 2^32, phantom average, idle average) |
| `Watermark.PublishedTrueMeanDecodes` | pvsched-ebpf/host/ebpf/timer/timer.bpf.c:319-330 | Under a monotone clock, with the same bounds and fewer than 2^32 samples in the window, its phantom field is the true mean of the counter |
| `Publication.LatestWatermarkInMemory` | pvsched-ebpf/host/ebpf/timer/timer.bpf.c:319-330 | For every run of samples, ticks and guest writes, the bytes of slot 0 decode to the newest tick: its time, its phantom average in 0..nb_vcpus, its idle average; across every wrap of the cursor |
| `Publication.GuestReadsTrueMean` | pvsched-ebpf/host/ebpf/timer/timer.bpf.c:271-330 | Under a monotone clock they decode to the newest tick's time and the floor mean, over every nanosecond of the window it closed, of the counter as the logged updates moved it; counter, window and order are defined on the actions alone |
| `Publication.GuestReadsIdleMean` | pvsched-ebpf/host/ebpf/timer/timer.bpf.c:321-330 | Their idle field is nb_cpus less the floor mean of the run-queue count sampled over the host's last closed window, at least 0; 0 before the first such window; whatever the VM's clock does |
| `Publication.PhantomAvgIsMean` | pvsched-ebpf/host/ebpf/timer/timer.bpf.c:271-319 | Under a monotone clock a tick's average is that mean |
| `Publication.IdleAvgIsIdleMean` | pvsched-ebpf/host/ebpf/idle_avg/global_running_tracker.bpf.c:174-211 | The published idle average is what that mean run-queue count leaves of the machine |
| `Publication.TrackerCounts` | pvsched-ebpf/host/ebpf/create_maps/create_maps.bpf.c:129 | The VM's tracker has the counter of the actions, after the run and at every instant |
| `Publication.TrackerWindow` | pvsched-ebpf/host/ebpf/timer/timer.bpf.c:271-317 | Its windows start, stop and fill as the actions say |
| `Publication.HostTrackerSamples` | pvsched-ebpf/host/ebpf/idle_avg/global_running_tracker.bpf.c:137-143 | The host-wide tracker has the samples of the actions |
| `Publication.GuestWordInMemory` | pvsched-shmem/guest/guest_ivshmem.c:291-300 | No tick disturbs the run states: the bytes of slot i are the guest's last word for it |
| `Publication.WatermarkInMemory` | pvsched-ebpf/host/ebpf/timer/timer.bpf.c:326-330 | So do the bytes of each history slot for its own tick, as long as the ring is in order and fewer than 63 ticks followed |
| `Publication.RecentWordInMemory` | pvsched-shmem/host/host_ivshmem.c:151-158 | Whatever is published, the bytes of a recent tick's slot are its word |
| `Publication.LatestWordInMemory` | pvsched-shmem/host/host_ivshmem.c:154-158 | Whatever is published, the bytes of slot 0 are the newest word |
| `Publication.PageIsPublished` | pvsched-shmem/host/host_ivshmem.c:148-158 | Guest writes apart, the shared page is what the published words alone leave |
| `Publication.WordOfTick` | pvsched-ebpf/host/ebpf/timer/timer.bpf.c:326-330 | A tick's word keeps its number |
| `Watermark.DecodeExactIff` | pvsched-ebpf/host/ebpf/timer/timer.bpf.c:193-195 | Both averages decode exactly if and only if each fits its 16 bits and is not negative |
| `Watermark.UnpackPacked` | pvsched-ebpf/host/ebpf/timer/timer.bpf.c:180-183 | The documented layout recovers any three fields in range |
| `Watermark.FieldsAreDisjoint` | pvsched-ebpf/host/ebpf/timer/timer.bpf.c:193-195 | On 64-bit words the or of the three shifted fields is their sum, and shift-and-mask recovers each |
| `Watermark.IdleAverageBound` | pvsched-ebpf/host/ebpf/idle_avg/global_running_tracker.bpf.c:206-211 | In every run the idle average is at most nb_cpus |
| `VmKeys.KeysAgreeIff` | pvsched-ebpf/host/include/register_vm.h:235-251 | Kernel and userspace keys are byte-identical for both buffers if and only if the name has at most 61 characters |
| `VmKeys.UserKeyInjective` | pvsched-ebpf/host/include/register_vm.h:235-251 | Up to 61 characters, distinct (name, digit) pairs have distinct keys |
| `VmKeys.PadInjective` | pvsched-ebpf/host/include/register_vm.h:118-119 | Zero padding loses nothing |
| `VmKeys.CopyOfField` | pvsched-ebpf/host/ebpf/create_maps/create_maps.bpf.c:135-142 | The copy loop stops after the whole name, or after 61 characters |
| `VmKeys.BuildKeys` | pvsched-ebpf/host/ebpf/timer/timer.bpf.c:247-261 | The in-place loop builds both kernel keys |
| `VmKeys.AppendSuffix` | pvsched-ebpf/host/ebpf/timer/timer.bpf.c:255-257 | Appends the suffix and keeps the zero padding |
| `VmRegistration.CleanupUndoesRegistration` | pvsched-ebpf/host/user/cleanup.c:84-152 | Registering an absent VM with fresh TIDs and cleaning up restores all three maps if and only if the name has at most 63 characters or the list is empty |
| `VmRegistration.RegistrationResets` | pvsched-ebpf/host/include/register_vm.h:96-157 | From any maps, registration leaves counter 0, the listed vCPUs stored and unflagged, and unlisted vCPUs of other VMs as they were; the VM's entries are exactly the listed ones if and only if its name has at most 63 characters or it left no unlisted entry behind |
| `VmRegistration.RegistrationStores` | pvsched-ebpf/host/include/register_vm.h:92-157 | What registration stores: for each thread id the last listed vCPU index, this VM's name and no flag; a record with nb_vcpus and all else zero; nothing else changes |
| `VmRegistration.InsertedValue` | pvsched-ebpf/host/include/register_vm.h:140-149 | The entry written last for a thread id is the one stored |
| `VmRegistration.RecordStartsTracker` | pvsched-ebpf/host/include/register_vm.h:96-101 | The record is the state every run of the VM's tracker starts from |
| `VmRegistration.RegisteredRunsCount` | pvsched-ebpf/host/include/register_vm.h:77-168 | From registration on, with no flag left behind and no more vCPUs listed than nb_vcpus, in every interleaving the counter stays in 0..nb_vcpus and is exact until a retry loop is exhausted |
| `VmRegistration.SetUpStores` | pvsched-ebpf/host/include/register_vm.h:235-255 | Set-up stores the second array under the second key, and the first under the first if and only if the name has at most 61 characters (or both arrays are one); nothing else changes |
| `VmRegistration.KeysDifferIff` | pvsched-ebpf/host/include/register_vm.h:235-251 | The two keys differ if and only if the name has at most 61 characters |
| `VmRegistration.KernelFindsBuffers` | pvsched-ebpf/host/ebpf/timer/timer.bpf.c:247-266 | For such a name the kernel programs find each array under the key they build |
| `VmRegistration.RegistrationInitialises` | pvsched-ebpf/host/include/register_vm.h:96-157 | With no handler running, registration from any maps leaves an initial state of the interleaved counter model if and only if every flagged entry was this VM's or is listed |
| `VmRegistration.RegisteredFit` | pvsched-ebpf/host/include/register_vm.h:126-157 | And then, for such a name or without stale entries, the VM has at most as many vCPUs as listed, and at most nb_vcpus if the list does not exceed that |
| `VmRegistration.RegisteredEntry` | pvsched-ebpf/host/include/register_vm.h:116-157 | Entry by entry, what registration leaves |
| `VmRegistration.CleanupFindsOwnIff` | pvsched-ebpf/host/include/register_vm.h:48 | Cleanup finds a VM's own entries if and only if the stored name was not truncated |
| `VmRegistration.CleanedVcpus` | pvsched-ebpf/host/include/register_vm.h:28-70 | Entry by entry, what registration followed by cleanup leaves |
| `VmRegistration.DeleteMatching` | pvsched-ebpf/host/include/register_vm.h:43-67 | Deleting the collected keys removes exactly the named VM's entries |
| `VmRegistration.MatchingMembers` | pvsched-ebpf/host/include/register_vm.h:43-63 | Collected keys are exactly the present keys whose entry bears the name |
| `VmRegistration.InsertedEntries` | pvsched-ebpf/host/include/register_vm.h:126-157 | After n insertions: the listed entries, unflagged and under the truncated name, the others untouched |
| `VmRegistration.PinnedMaps.CollectKeys` | pvsched-ebpf/host/include/register_vm.h:35-63 | The doubling buffer holds exactly the matching keys in iteration order; it gives up only when an allocation is refused |
| `VmRegistration.PinnedMaps.CleanupStaleVcpus` | pvsched-ebpf/host/include/register_vm.h:28-70 | Removes exactly the named VM's entries, or nothing at all on a refused allocation |
| `VmRegistration.PinnedMaps.RegisterVm` | pvsched-ebpf/host/include/register_vm.h:77-168 | The maps of RegistrationStores on success; nothing when the record is not allocated or a map does not open; on a full map or a refused vCPU record the exact prefix of insertions already made |
| `VmRegistration.PinnedMaps.SetupVmMaps` | pvsched-ebpf/host/include/register_vm.h:188-257 | The registry of SetUpStores on success; fails exactly when a buffer could not be created and pinned, or the registry is full, then possibly after the first key |
| `VmRegistration.PinnedMaps.CleanupVm` | pvsched-ebpf/host/user/cleanup.c:84-152 | Deletes both registry keys, the VM entry and its vCPUs, each from its own map if that opens; a refused allocation leaves only the vCPUs behind |
| `VmRegistration.Grow` | pvsched-ebpf/host/include/register_vm.h:50-57 | A larger buffer with the same contents |
| `LinkedList.PushBack` | pvsched-ebpf/host/user/linkedlist.c:28-42 | Appends one node at the tail of the chain, reusing every node; a refused allocation changes nothing |
| `LinkedList.Last` | pvsched-ebpf/host/user/linkedlist.c:28-42 | The walk ends at the tail |
| `QmpReply.ExtractRendered` | pvsched-ebpf/host/user/register_vm.c:37-88 | For every list of pairs rendered as objects with thread-id first and no stray key, extraction returns exactly that list in order |
| `QmpReply.ExtractVcpuInfo` | pvsched-ebpf/host/user/register_vm.c:37-88 | The loop builds a heap list: a dummy head, then exactly the entries read from the reply that allocation lets through; no list without a head |
| `QmpReply.CollectEntries` | pvsched-ebpf/host/user/register_vm.c:51-83 | The scanning loop appends one node for every occurrence of the entry key; a refused node drops its entry, a refused vCPU record ends the scan |
| `QmpReply.AllKept` | pvsched-ebpf/host/user/register_vm.c:66-79 | With every allocation granted all entries reach the list |
| `QmpReply.AppendEntry` | pvsched-ebpf/host/user/register_vm.c:76-79 | Appends one extracted vCPU at the tail, or nothing if its node is refused |
| `QmpReply.EntriesRendered` | pvsched-ebpf/host/user/register_vm.c:51-83 | One entry for each rendered object, none from the text between |
| `QmpReply.EntryRead` | pvsched-ebpf/host/user/register_vm.c:57-64 | From a rendered object both numbers are read back |
| `QmpReply.FoundBehindFiller` | pvsched-ebpf/host/user/register_vm.c:51 | The search stops at the key, not earlier inside the filler or across its edge |
| `QmpReply.FindIsFirst` | pvsched-ebpf/host/user/register_vm.c:51 | The search returns the first occurrence, or -1 when there is none |
| `QmpReply.ScanRendered` | pvsched-ebpf/host/user/register_vm.c:58 | Scanning decimal digits gives back the number they render |
| `QmpReply.ScanIntReads` | pvsched-ebpf/host/user/register_vm.c:58 | After any blanks a number is read with its sign |
| `QmpReply.ScanIntKeeps` | pvsched-ebpf/host/user/register_vm.c:54-58 | Text that does not go on with a number leaves -1 |
| `QmpReply.MissingKeyKeeps` | pvsched-ebpf/host/user/register_vm.c:60-64 | Without the index key the index stays -1 |
| `VmIds.IdsDistinct` | pvsched-shmem/host/host_ivshmem.c:302-343 | In every interleaving, failed creations included, in which those step back only when that is safe, ids held are pairwise distinct and their device numbers lie in 1..255 |
| `VmIds.NoFailureIsCareful` | pvsched-shmem/host/host_ivshmem.c:309-313 | Every interleaving with capacity rollbacks only is such a run |
| `VmIds.RollbackSafeIff` | pvsched-shmem/host/host_ivshmem.c:331-337 | Exact condition, with two more callers to come: after a failed creation steps back, ids stay distinct in every careful continuation if and only if its id was the newest issued and no capacity rollback was pending unless all ids were issued |
| `VmIds.RollbackKeepsInvIff` | pvsched-shmem/host/host_ivshmem.c:331-337 | Under the same condition, and only then, the step back keeps the ids held equal to those below the counter less the pending overshoots |
| `VmIds.OlderIdDuplicates` | pvsched-shmem/host/host_ivshmem.c:331-337 | Stepping back with an older id leads to a duplicate |
| `VmIds.PendingOvershootDuplicates` | pvsched-shmem/host/host_ivshmem.c:309-337 | Stepping back with the newest id while a capacity rollback is pending and an id is free leads to a duplicate |
| `VmIds.RollbackCanDuplicate` | pvsched-shmem/host/host_ivshmem.c:331-337 | Concrete interleaving in which two registered VMs hold the same id |
| `VmIds.OvershootCanDuplicate` | pvsched-shmem/host/host_ivshmem.c:309-337 | Concrete interleaving from an empty registry in which only newest ids are given back and two callers still hold id 254 |
| `VmIds.FetchKeepsInv` | pvsched-shmem/host/host_ivshmem.c:309-313 | Taking an id keeps ids distinct and below the counter |
| `VmIds.OtherKeepsInv` | pvsched-shmem/host/host_ivshmem.c:309-343 | So does every other step except the step back of a failed creation |
| `VmIds.CarefulRunKeepsInv` | pvsched-shmem/host/host_ivshmem.c:302-343 | And every run whose failed creations step back safely |
| `VmIds.HostRegistry.constructor` | pvsched-shmem/host/host_ivshmem.c:309 | Starts with no device and counter 0 |
| `VmIds.HostRegistry.RegisterVm` | pvsched-shmem/host/host_ivshmem.c:302-343 | Called sequentially, with any failures: a success fills exactly one previously empty device slot, never slot 0; a failure changes none; each error has its code |

## Left out

- PhantomWindow.TickAveragesTrueCount: takes each switch handler as one step; a handler split across a buffer flip can write into the wrong window, which the code does not exclude.
- PhantomWindow.PhantomVm.SwitchHandler: both of the VM's buffers are registered; the branches that skip a sample because a buffer is missing from the registry are not modelled.
- PhantomWindow.PhantomVm.TimerTick: likewise without the early return when a buffer is missing from the registry.
- Watermark.PublishedWatermarkDecodes: packs with word arithmetic; the bit operations are proved equal to that arithmetic on 64-bit vectors only (`FieldsAreDisjoint`).
- VmIds.IdsDistinct: the 32-bit wrap of the id counter is not modelled.
- QmpReply.ExtractVcpuInfo: numbers are unbounded where `sscanf` reads an `int`.
- VmRegistration.PinnedMaps.CollectKeys: the 32-bit overflow of the buffer's capacity is not modelled.
- GuestRunState.SlotIffOpenMpSinceSwitchIn: an exec keeps its TID; an exec by a non-leader thread, which changes it, is not modelled.
- Page size is fixed at 4096 bytes, so a page has 64 slots.
- Memory ordering is sequentially consistent.
- The start-once flags of the timers, and timer re-arming.
- Loaders, bpffs pins and directories, and the QMP socket.
- Character devices, PCI enabling, RCU, debugfs and module start and stop in both kernel modules.
- The host's own mmap, and the loop that frees backends when the module unloads.
- The second ivshmem device in a guest, which is reported busy and then published anyway (`guest_ivshmem.c:503-516`).
- The wakeup handler that is commented out in `create_maps.bpf.c`.
- Tests, scripts, development tools and the thread-count decisions taken in libgomp.

# CPU scheduling simulator, modelled in Dafny

This project models the core of a small Go command-line simulator. It takes a batch of processes, each with an id, an arrival time, a burst duration and a priority. It then runs four scheduling simulations over that batch:

- first-come first-served;
- preemptive shortest-job-first (shortest remaining time first);
- non-preemptive priority;
- round-robin with a quantum of 2.

Each simulation produces three things:
- a timeline, with one `TimeSlice` (pid, start, stop) per process;
- a table, with one row per process: id, priority, burst, arrival, wait, turnaround, completion;
- integer totals. The program derives its average wait, average turnaround and throughput from these totals.

Every scheduler is an imperative method over working arrays and loop variables, as in the source. Each one is proved equal to a specification function. The properties of the schedulers are proved about those specification functions.

Modules, one file each:

- `Processes` (`processes.dfy`) holds the records and the report. It also holds the sums and counts the invariants are phrased in: `Sum` and `CountZeros`, with their update lemmas.
- `Timeline` (`timeline.dfy`) holds two pieces the schedulers share:
  - `findTurnAroundTime`;
  - the final pass of the SJF, priority and RR schedulers. That pass emits one timeline entry and one table row per process, keeps the totals, and sets each timeline `Stop` to the running maximum of the completion times.
- `Fcfs` (`fcfs.dfy`) is specified by a per-index recursive definition of the wait. Its closed form is `Fcfs.FcfsWaitFromLastArrival`.
- `Sjf` (`sjf.dfy`) is specified by a one-tick step function run to the end. Termination is measured by (total remaining time, latest arrival − clock).
- `Priority` (`priority.dfy`) models the four parallel arrays and the in-place selection sort on them. The sort is specified by a functional selection sort.
- `RoundRobin` (`round_robin.dfy`) is specified by a one-iteration step function run with a fuel bound, because the source loop need not terminate.

Where the code departs from textbook scheduling, the model follows the code:

- **FCFS wait.** The wait is not clamped at zero. A process that arrives after the service time so far gets a negative wait (`Fcfs.FcfsNegativeWait`).
- **FCFS with every arrival at zero.** The wait is only computed for a process with a positive arrival. When every arrival is 0, every wait stays 0 and every completion equals the process's own burst, not the cumulative burst sum (`Fcfs.FcfsZeroArrivals`, `Fcfs.FcfsZeroArrivalExample`).
- **Priority tie-break.** The selection sort swaps entries, so it is not stable. With priorities 1, 1, 0 the two priority-1 entries come out in reverse batch order (`Priority.SelectionSortNotStable`).
- **SJF wait clamp.** The SJF scheduler clamps a negative wait to 0, but the clamp never changes anything. A process cannot receive more CPU ticks than have passed since its arrival, so the unclamped wait is already nonnegative (`Sjf.TickCompletion`).
- **SJF with a burst of 0 or less.** Such a process is never picked, so `complete` never reaches the batch size and the tick loop never ends (`Sjf.SjfNeverEnds`).

## Model

| member | source | states |
|---|---|---|
| Timeline.FindTurnAroundTime | main.go:378-386 | the definition: one turnaround per process, burst + wait. The identity for round-robin's separately accumulated turnarounds is proved in `RoundRobin.RROutcome` |
| Timeline.Completion | main.go:342 | definition: completion = burst + arrival + wait |
| Timeline.RunningMax | main.go:345-347 | definition: `finalCompletion` after k entries, starting at 0 and raised to each larger completion; never negative |
| Timeline.Tabulated | main.go:336-366 | definition of the final pass, shared with main.go:228-257 and main.go:449-479: one timeline entry (id, wait + arrival, running maximum) and one row per process, the sums of waits and turnarounds, and the final running maximum. It keeps one entry and one row per process |
| Timeline.Tabulate | main.go:336-366 | the final pass yields exactly `Tabulated`. That is one timeline entry and one row per process, in index order. Each entry starts at wait + arrival and stops at the running maximum of completion = burst + arrival + wait. The totals are the sums of waits and turnarounds. The final completion is that running maximum |
| Timeline.RunningMaxMonotone | main.go:345-347 | the running maximum of completions never decreases |
| Timeline.RunningMaxIsMax | main.go:458-460 | after k entries, `finalCompletion` is ≥ 0 and ≥ each of the first k completions, and is either 0 or one of them |
| Timeline.TimelineStops | main.go:236-244 | the timeline stops are nondecreasing. The last stop equals the reported final completion. That value is ≥ 0, is ≥ every row's completion, and is 0 or some row's completion |
| Fcfs.FcfsWait | main.go:86-93 | definition: the carried, unclamped `waitingTime`, overwritten with service time so far − arrival when the arrival is positive, else inherited, starting at 0 |
| Fcfs.FcfsReport | main.go:80-130 | definition: the FCFS report, with stop = service time after each process and the last process's completion as final completion. It keeps one entry and one row per process |
| Fcfs.FCFSSchedule | main.go:80-130 | the method returns exactly `FcfsReport`: the carried, unclamped wait; turnaround, completion and start per row; stop = service time so far; the two totals; the last completion |
| Fcfs.FcfsIteration | main.go:90-119 | one pass of the loop body computes process i's wait (carried, or service time so far − arrival for a positive arrival), its turnaround, its row and timeline entry exactly as in `FcfsReport`, and the service time after it |
| Fcfs.FcfsEntry | main.go:90-119 | entry i of the report, spelled out from the wait of process i, and the service time growing by its burst |
| Fcfs.FcfsWaitFromLastArrival | main.go:91-93 | the wait of process i is set by the last process j ≤ i with a positive arrival: the service time before j minus j's arrival |
| Fcfs.FcfsWaitWithoutArrival | main.go:86-93 | with no positive arrival up to i, the wait is still its initial 0 |
| Fcfs.FcfsMetrics | main.go:96-119 | per row: turnaround = burst + wait; completion = turnaround + arrival; start = wait + arrival; stop = sum of bursts 0..i; with a positive arrival, completion = stop |
| Fcfs.FcfsZeroArrivals | main.go:90-101 | with every arrival ≤ 0, every wait is 0 and every completion is the process's own burst + arrival |
| Fcfs.FcfsZeroArrivalExample | main.go:90-119 | for bursts 5 and 3, both arriving at 0: completions are 5 and 3, while the second stop is 8 |
| Fcfs.FcfsNegativeWait | main.go:91-93 | a single process arriving at 10 gets wait −10 |
| Fcfs.FcfsThreeProcessExample | main.go:90-125 | for the batch (5,0), (3,1), (8,2), given as (burst, arrival): waits 0, 4, 6; turnarounds 5, 7, 14; completions 5, 8, 16; totals 10 and 26; last completion 16 |
| Sjf.ScanFrom | main.go:297-303 | the scan either keeps the carried candidate or names an index in range whose remaining time is the new `minm` |
| Sjf.ScanPicks | main.go:297-303 | if some index beats the candidate, the result is one that beats it: the lowest index among the least remaining times, with `check` set. Otherwise the candidate is kept |
| Sjf.Step | main.go:294-332 | one tick keeps the array lengths and leaves a valid candidate index |
| Sjf.InitInv | main.go:287-292 | with every burst positive, the starting state satisfies the loop invariant |
| Sjf.Init | main.go:287-292 | the starting state has remaining = burst, no candidate and nothing complete |
| Sjf.TickIdle | main.go:305-308 | a tick is idle if and only if no process has arrived unfinished; an idle tick changes only the clock |
| Sjf.TickDispatch | main.go:297-316 | a busy tick decrements exactly one arrived, unfinished process by one. A running candidate is preempted only by a strictly smaller remaining time, and ties keep it. Otherwise the lowest index with the least remaining time wins |
| Sjf.TickCompletion | main.go:318-330 | a finished process stays finished with its wait untouched. The process a tick finishes gets wait = t + 1 − burst − arrival ≥ 0 and increments `complete`. No other wait changes |
| Sjf.StepIdle | main.go:305-308 | an idle tick keeps the invariant and happens before the latest arrival |
| Sjf.ScanEligible | main.go:297-303 | a scan that ends with a candidate has picked an arrived, unfinished process |
| Sjf.ProgressTick | main.go:310-316 | running an arrived, unfinished process for one tick keeps every remaining time in [0, burst] and every process's CPU time within the ticks since its arrival |
| Sjf.WaitsFinish | main.go:318-330 | recording a nonnegative wait for the process that finishes keeps waits nonnegative and unfinished processes without a wait |
| Sjf.BusyFinish | main.go:310-331 | the tick that runs a process's last unit keeps the invariant, with `complete` one higher and no candidate |
| Sjf.BusyContinue | main.go:310-316 | a tick that runs a process without finishing it keeps the invariant, with that process as the candidate and its new remaining time as `minm` |
| Sjf.BusyNext | main.go:310-331 | the picked process has arrived and is unfinished. A busy tick finishes it with the clamped wait and no candidate when one unit was left. Otherwise it lowers its remaining time by one and keeps it as the candidate |
| Sjf.StepBusy | main.go:310-331 | a busy tick keeps the invariant and uses up exactly one unit of remaining time |
| Sjf.StepInv | main.go:294-333 | every tick keeps the invariant and lowers (total remaining, latest arrival − t) lexicographically |
| Sjf.Run | main.go:294-333 | the loop ends, in a state satisfying the invariant, with every process complete |
| Sjf.StepAccounted | main.go:294-332 | on any batch, a tick keeps `complete` + (processes with remaining time > 0) equal to the number of positive bursts, and a carried candidate unfinished |
| Sjf.TicksAccounted | main.go:294-332 | that accounting holds after any number of ticks |
| Sjf.SjfNeverEnds | main.go:294-333 | with some burst ≤ 0, `complete` stays below the batch size after any number of ticks from the start, so the loop never exits |
| Sjf.SjfOutcome | main.go:318-331 | at the end every remaining time is 0, and every reported wait is ≥ 0 with turnaround = burst + wait |
| Sjf.SjfFinal | main.go:287-333 | definition: the state the tick loop ends in, from the start; it satisfies the invariant with every process complete |
| Sjf.SjfWaits | main.go:318-330 | definition: the waits that end state holds |
| Sjf.SjfReport | main.go:268-374 | definition: the shared final pass over the batch with those waits and burst + wait as turnarounds |
| Sjf.Scan | main.go:297-303 | the scan loop computes `ScanFrom` from index 0 |
| Sjf.Tick | main.go:297-331 | one pass of the tick loop on the arrays performs `Step` |
| Sjf.SJFSchedule | main.go:268-374 | the method returns exactly `SjfReport`: the completed tick loop followed by the shared final pass |
| Priority.Numbered | main.go:156-164 | the working copy has one entry per process |
| Priority.MinPosFrom | main.go:168-178 | the inner scan returns an index in range: its start or one it scanned |
| Priority.Swap | main.go:181-195 | all four fields of entries i and pos are exchanged together, and nothing else changes |
| Priority.SelectionSort | main.go:166-199 | the sort keeps the length |
| Priority.MinPosFinds | main.go:168-178 | the inner scan finds the first position holding the least priority value among the unsorted entries |
| Priority.SwapMultiset | main.go:181-195 | a swap permutes the entries |
| Priority.SwapPlaces | main.go:166-199 | one outer pass puts one more entry in place: the first i + 1 entries are sorted and none has a larger priority than an entry after them |
| Priority.SelectionSortSorts | main.go:166-199 | from a placed prefix on, the result is sorted by priority and is a permutation of the input |
| Priority.PrioritySorted | main.go:156-199 | the sorted working copy has nondecreasing priorities and is a permutation of the batch. Each entry is some batch process with every field intact and its 1-based batch position as id |
| Priority.SelectionSortNotStable | main.go:166-199 | priorities 1, 1, 0 sort to ids 3, 2, 1: equal priorities are not kept in batch order |
| Priority.PriorityWait | main.go:201-216 | definition: the write that survives the inner loop, wait[0] = 0 and wait[i] = wait[i−1] + burst[i−1] − arrival[i] |
| Priority.PriorityWaits | main.go:201-216 | definition: that wait for every sorted entry, one per entry |
| Priority.PriorityWaitClosedForm | main.go:201-216 | the surviving wait of entry i is the bursts of entries 0..i−1 minus the arrivals of entries 1..i |
| Priority.PriorityWaitZeroArrivals | main.go:201-216 | with every arrival 0, the wait is the total burst of the entries sorted before |
| Priority.PriorityMetrics | main.go:201-244 | wait[0] = 0; wait[i] = wait[i−1] + burst[i−1] − arrival[i], unclamped; turnaround = burst + wait. Timeline entry i carries the batch's id at i with the sorted entry's start |
| Priority.PriorityTimelineExample | main.go:240-253 | for processes 7 (priority 2, burst 4) and 8 (priority 1, burst 1): the first row is process 8 shown with id 2, and the first timeline entry shows id 7 with process 8's slot (0 to 1) |
| Priority.TableSwap | main.go:181-195 | swapping the same two positions in each of the four columns swaps the two entries of the table they form |
| Priority.PriorityReport | main.go:134-265 | definition: nothing for an empty batch (the source panics); otherwise the final pass over the sorted entries with the batch's ids on the timeline |
| Priority.SortByPriority | main.go:166-199 | the in-place sort over the four arrays leaves them holding `SelectionSort` of their old contents |
| Priority.FindMin | main.go:168-178 | the inner loop returns the position `MinPosFrom` names: the first from i on holding the least priority value |
| Priority.SwapEntries | main.go:181-195 | the four exchanges leave the arrays holding the old entries with positions i and pos swapped, every field moving together |
| Priority.CopyNumbered | main.go:156-164 | the copy loop fills the four arrays with the batch, with id replaced by i + 1 |
| Priority.ComputeWaits | main.go:201-216 | the wait loops leave the array holding the surviving-write waits |
| Priority.ComputeTurnarounds | main.go:219-226 | turnaround[i] = burst[i] + wait[i] for the sorted entries |
| Priority.SJFPrioritySchedule | main.go:134-265 | the method returns exactly `PriorityReport`: nothing for an empty batch; otherwise the sorted entries' rows, waits and totals, with the timeline pairing the batch's ids with the sorted starts |
| RoundRobin.Init | main.go:412-420 | the state entering the loop has the loop's shape |
| RoundRobin.NextCount | main.go:438-446 | the cursor rule: the result is a valid index; it is count + 1 exactly when count is not the last index and that process has arrived by the new clock, and 0 otherwise |
| RoundRobin.Served | main.go:422-431 | the time one iteration serves: between 0 and the quantum; 0 for a finished process; otherwise positive, at most the remaining time, and all of it when less than a quantum remains |
| RoundRobin.Step | main.go:421-446 | one iteration keeps the shape: array lengths, lowered flag, cursor in [0, n) |
| RoundRobin.RunRR | main.go:421-448 | a run that finishes within the fuel ends with `remain` = 0 |
| RoundRobin.RRReport | main.go:389-479 | definition: the final pass over the batch with the waits and turnarounds of the loop's end state, or nothing if the loop has not ended within the fuel |
| RoundRobin.StepEffect | main.go:421-446 | one iteration changes only the entry under the cursor. Its remaining time drops by 2, or to 0 when at most 2 is left, and the clock advances by the time served. `remain` drops, and wait and turnaround are written, exactly when the entry goes from positive to 0. The cursor becomes count + 1 only when count < n − 1 and that process has arrived by the new clock; otherwise it becomes 0 |
| RoundRobin.InitInv | main.go:412-420 | with positive bursts, the starting state satisfies the invariant |
| RoundRobin.RecordedSlice | main.go:426-431 | serving part of an unfinished process, with the clock moving forward, keeps unfinished processes without a record and finished ones completed by the clock |
| RoundRobin.RecordedFinish | main.go:432-437 | finishing an unfinished process at the new clock and writing its wait and turnaround gives it turnaround − wait = burst and completion = clock, and changes no other record |
| RoundRobin.StepFinishInv | main.go:422-437 | an iteration that finishes the current process keeps the invariant |
| RoundRobin.StepSliceInv | main.go:426-431 | an iteration that serves a full quantum keeps the invariant |
| RoundRobin.StepInv | main.go:421-448 | every iteration keeps the invariant: 0 ≤ rt ≤ burst; time = Σburst − Σrt; `remain` counts the unfinished processes; unfinished processes have no wait or turnaround recorded; finished ones have turnaround − wait = burst and finished by the current time; once none remains, some process completed exactly at the current time |
| RoundRobin.RunInv | main.go:421-448 | a finished run ends in a state satisfying the invariant |
| RoundRobin.RROutcome | main.go:421-466 | a finished run leaves every remaining time at 0 and the clock at the total burst. Every turnaround is burst + wait, every completion is ≤ the final clock, and the reported final completion equals the total burst |
| RoundRobin.ExampleFirstRound | main.go:421-446 | the first three iterations on the three-process batch |
| RoundRobin.ExampleSecondRound | main.go:421-446 | iterations four to six: process 2 finishes at time 9 |
| RoundRobin.ExampleSecondHalf | main.go:421-446 | the last six iterations: process 1 finishes at 12 and process 3 at 16 |
| RoundRobin.ExampleRun | main.go:421-448 | the whole run on the three-process batch ends after 12 iterations with waits 7, 5, 6, turnarounds 12, 8, 14 and clock 16 |
| RoundRobin.ExampleTable | main.go:449-466 | the final pass over those waits and turnarounds gives the rows' waits and turnarounds and final completion 16 |
| RoundRobin.RRThreeProcessExample | main.go:421-466 | for the batch (5,0), (3,1), (8,2), given as (burst, arrival): the run ends after 12 iterations with waits 7, 5, 6, turnarounds 12, 8, 14 and final completion 16 |
| RoundRobin.RRNonTermination | main.go:438-446 | for processes (arrival 0, burst 1) and (arrival 5, burst 1) the loop never ends for any fuel: the cursor stays on the finished process 0 and the clock stops |
| RoundRobin.StepCounted | main.go:421-446 | on any batch, an iteration keeps `remain` − (processes with remaining time > 0) equal to the number of processes whose burst is ≤ 0 |
| RoundRobin.RunCounted | main.go:421-448 | with some burst ≤ 0 that count keeps `remain` above zero, so no run ends within any fuel |
| RoundRobin.RRNeverEndsWithoutBurst | main.go:421-448 | with some burst ≤ 0, the loop never ends: the report is nothing for every fuel |
| RoundRobin.StuckForever | main.go:421-448 | a state that is its own successor, with processes left, never finishes |
| RoundRobin.StepSkipGap | main.go:438-446 | with every process arrived, an iteration on a finished process moves the cursor one step closer to an unfinished one and changes no remaining time |
| RoundRobin.StepServeSum | main.go:422-431 | an iteration on an unfinished process lowers the total remaining time |
| RoundRobin.StepMeasure | main.go:421-446 | with every process arrived and the invariant holding, each iteration lowers a nonnegative measure |
| RoundRobin.RunTerminates | main.go:421-448 | with every process arrived, a run with more fuel than the measure finishes |
| RoundRobin.RRTerminatesWhenAllArrived | main.go:421-448 | if every arrival is ≤ 0 and every burst positive, the loop ends within (2n + 1)·Σburst + 2n + 1 iterations |
| RoundRobin.RRTick | main.go:421-446 | one pass of the loop body on the arrays performs `Step` |
| RoundRobin.RunLoop | main.go:421-448 | the loop on the arrays ends within the fuel exactly when `RunRR` does, and then leaves the arrays and variables in `RunRR`'s end state |
| RoundRobin.RRSchedule | main.go:389-489 | the method returns exactly `RRReport`: the report of the loop's end state, or nothing if the loop has not ended within the fuel |

## Left out

- Input and output are not modelled. That covers command-line handling, opening and parsing the process file, the `io.Writer` and title parameters, and `outputTitle`, `outputGantt` and `outputSchedule` (text rendering through `fmt` and the table library). The string rows of `schedule` are modelled as integer `Row` records.
- The float64 averages and the throughput are not modelled, including division by zero on an empty batch. The report carries the integer totals and the completion time they divide by.
- Go's `int`/`int64` widths, overflow and conversions are not modelled: all integers are unbounded.
- The `math.MaxInt` sentinel for `minm` in SJF is modelled as `None`, meaning no current candidate.
- The `total` variable in the priority scheduler is only read in its own updates and its value never reaches the output, so it is not modelled.
- Sjf.SJFSchedule: requires every burst to be at least 1. A process with a burst of 0 or less is never picked and never completes, so the source loop never ends on such a batch (`Sjf.SjfNeverEnds`).
- RoundRobin.RRSchedule: takes an extra fuel bound and returns nothing if the loop has not ended after that many iterations. The source loop is unbounded and can run forever (`RoundRobin.RRNonTermination`). The invariant lemmas assume every burst is at least 1. This excludes no run that ends: with a burst of 0 or less the loop never ends (`RoundRobin.RRNeverEndsWithoutBurst`). Termination is proved only for batches where every arrival is ≤ 0.
- Priority.SJFPrioritySchedule: returns nothing for an empty batch, where the source indexes `waiting_time[0]` out of range and panics.

# CPU scheduling simulator: verified model of the schedulers

This project models the scheduling core of a browser-based CPU scheduling
simulator (`script.js`) and proves properties about it. The user enters
processes, each with a pid, arrival time, burst time and priority. The
simulator runs one of three non-preemptive policies:

- FCFS: first come, first served.
- SJF: shortest job first.
- Priority: lowest priority number first.

Each simulation produces two lists:

- `finished` records: the process plus its completion, turnaround and
  waiting times.
- A `timeline` of blocks, each either `IDLE` or a running pid, with a start
  and an end.

The results table adds up the waiting and turnaround times.

Modules:

- `Processes` (`processes.dfy`): the entities. These are a process, a
  finished record, and a timeline block whose occupant is `Idle` or
  `Running(pid)`.
- `Ordering` (`ordering.dfy`): the three comparators passed to
  `Array.prototype.sort`, as the datatype `Order`. `x || y` on numbers is
  modelled as `OrElse`. ECMAScript 2019 requires that sort to be stable
  (section 23.1.3.30 of ECMA-262), so it is modelled as the stable
  insertion sort `StableSort`. Two lemmas pin it down:
  - `StableSortUnique` proves `StableSort` is the only sorted rearrangement
    that keeps every group of tied entries (`Peers`) in input order.
  - `StableSortHead` proves that `sort` followed by `shift` yields the first
    minimal entry.
- `Schedule` (`schedule.dfy`): the predicates every scheduler's output
  satisfies. These cover a contiguous timeline, the record identities, no
  early start, one run block per record, and IDLE only when nothing is
  ready.
- `Fcfs` (`fcfs.dfy`): `solveFCFS` as the method `SolveFCFS`. It sorts by
  arrival, then runs a loop that inserts an IDLE block whenever the next
  process has not arrived.
- `ReadyQueue` (`ready_queue.dfy`): the `while` loop that `solveSJF` and
  `solvePriority` share, as the method `RunReadyQueue`, with the comparator
  as a parameter. One pass of the loop is the method `Iterate`. `SolveSJF`
  and `SolvePriority` instantiate the loop.
- `Metrics` (`metrics.dfy`): the `forEach` in `displayResults` that totals
  waiting and turnaround times, the method `Totals`.

Modelling decisions:

- Processes are admissible: `arrival >= 0 && burst > 0`. The form handler
  (script.js:67) only rejects NaN, so every scheduler states this as its
  precondition.
- Integers are unbounded. JavaScript numbers are doubles, but every value
  here is a sum of small integers.
- `Math.min(...[])` is never reached. The loop only computes the next
  arrival when nothing is ready and the queues are not both empty, so
  `remaining` is non-empty there. `MinArrival` therefore requires a
  non-empty list.
- The code breaks ties in its comparators (SJF: equal burst;
  Priority: equal priority) by arrival. When arrivals are also equal, the
  code keeps the ready-queue order, which is input order. Neither
  comparator orders two processes that agree on both keys. The model
  proves the input-order tie-break.

## Model

| member | source | states |
|---|---|---|
| Ordering.Compare | script.js:194 | The comparator's value, for the lambdas at script.js:140, 194 and 237, with JavaScript's logical or on numbers written as `OrElse`; CompareMeaning states its lexicographic meaning. |
| Ordering.CompareMeaning | script.js:140 | ByArrival orders by arrival. ByBurst and ByPriority order by burst or priority, then by arrival. Two processes are tied exactly when they agree on both keys. |
| Ordering.ComparatorIsConsistent | script.js:194 | Each comparator is antisymmetric, total and transitive. Ties form an equivalence. Tied processes have the same arrival. |
| Ordering.StableSort | script.js:140 | The sorted list has the same length and the same multiset of processes as its input. |
| Ordering.StableSortSorted | script.js:237 | The output of the sort is in comparator order. |
| Ordering.StableSortPeers | script.js:140 | Stability: the processes tied with any `y` appear in the same relative order before and after the sort. |
| Ordering.StableSortUnique | script.js:194 | Any sorted list that keeps every tie group in input order equals `StableSort`, so the engine's stable sort and this model agree. |
| Ordering.SortedPeersUnique | script.js:237 | Two sorted lists that agree on every tie group are equal. |
| Ordering.StableSortHead | script.js:194-195 | `sort` then `shift` returns an entry that may precede every entry of the list. It comes from some index `i`, and every entry before `i` compares strictly greater. |
| Schedule.ContiguousBlocks | script.js:142-166 | In a contiguous timeline the first block starts at 0, every block has positive length, and each block starts where the previous one ended. |
| Schedule.TimelineCoversMakespan | script.js:296 | The block durations add up to the end of the last block, the Gantt chart's total time. Every block lies within `[0, total time]`. |
| Schedule.BusyTimeIsTotalBurst | script.js:166 | If the run blocks match the records, there is one run block per finished record, in order, with that record's pid and a length equal to its burst. The busy time is the total burst. |
| Schedule.AppendRun | script.js:152-166 | Pushing a process's run block `[start, start + burst)` at the end of a contiguous timeline keeps it contiguous and matched. The pushed record satisfies the identities and starts at `start`. |
| Schedule.AppendIdle | script.js:147-149 | Pushing an IDLE block of positive length keeps the timeline contiguous and leaves its run blocks unchanged. |
| Fcfs.FcfsStep | script.js:146-167 | One iteration of the `forEach` keeps the FCFS invariant. The records so far are the first `i` sorted processes and satisfy the identities. Nobody started early or later than necessary. The timeline is contiguous, ends at `currentTime`, and matches the records. Every IDLE block was forced and ends at an arrival. |
| Fcfs.SolveFCFS | script.js:138-170 | The dispatch order is the input stably sorted by arrival: a permutation, sorted, with equal arrivals in input order. Every record has `turnaround = completion - arrival` and `waiting = turnaround - burst`. Each process starts at `max(previous completion, arrival)`. The timeline is contiguous from 0 and ends at the last completion. Each process has exactly one run block, of length burst. IDLE happens only when nothing is ready and ends at an arrival that is dispatched right then. |
| ReadyQueue.ArrivedBy | script.js:181 | `remaining.filter(p => p.arrival <= currentTime)`: exactly the entries that have arrived. |
| ReadyQueue.PendingAfter | script.js:183 | `remaining.filter(p => p.arrival > currentTime)`: exactly the entries not yet arrived. |
| ReadyQueue.SplitByArrival | script.js:181-183 | The two filters split `remaining` with no process lost or duplicated (multiset and length). |
| ReadyQueue.PeersByArrival | script.js:181-183 | The filters move each tie group as a whole and keep its order. |
| ReadyQueue.MinArrival | script.js:187 | `Math.min` of the arrivals of a non-empty list is one of them and no larger than any. |
| ReadyQueue.NothingArrived | script.js:183-185 | When nothing has arrived, the filter leaves `remaining` unchanged. |
| ReadyQueue.IdleStep | script.js:185-190 | An IDLE pass advances time strictly, to the earliest pending arrival, after which some process has arrived. It keeps the loop invariant. |
| ReadyQueue.ReadyHead | script.js:194-195 | The sorted ready queue holds exactly the previously ready and the newly arrived processes. Its head may precede every other entry. |
| ReadyQueue.DispatchStep | script.js:194-211 | A dispatching pass runs the head of the sorted queue from `currentTime` for its burst. It keeps the loop invariant, and the combined size of the two queues shrinks. |
| ReadyQueue.Iterate | script.js:179-212 | One pass of the `while` loop keeps the invariant. Either the queues shrink, or the pass was IDLE and some process is ready afterwards, so the loop terminates. |
| ReadyQueue.RunReadyQueue | script.js:172-215 | The dispatch order is a permutation of the input. Every dispatch picks a process minimal under the comparator among those that had arrived. Processes the comparator cannot tell apart run in input order. Records, timeline and IDLE blocks satisfy the same guarantees as FCFS's. |
| ReadyQueue.ShortestJobFirst | script.js:194 | Under the SJF comparator, every dispatch ran a shortest arrived process, the earliest-arrived one among equally short ones. |
| ReadyQueue.LowestPriorityNumberFirst | script.js:237 | Under the Priority comparator, every dispatch ran an arrived process with the lowest priority number, the earliest-arrived one among equals. |
| ReadyQueue.SolveSJF | script.js:172-215 | `solveSJF`: the ready-queue guarantees with the (burst, arrival) comparator, stated as shortest-job-first. |
| ReadyQueue.SolvePriority | script.js:217-258 | `solvePriority`: the ready-queue guarantees with the (priority, arrival) comparator, stated as lowest-priority-number-first. |
| Metrics.Totals | script.js:265-277 | The accumulated `totalWaiting` and `totalTurnaround` are the sums of `waiting` and `turnaround` over the records. |
| Metrics.TotalPermutation | script.js:269-277 | A total over a rearrangement of the records (the same multiset) equals the total over the original. |
| Metrics.DisplayTotals | script.js:265-277 | Totals accumulated over the pid-sorted table equal the totals over `finished`. |
| Metrics.TurnaroundIsWaitingPlusBurst | script.js:156-157 | For consistent records, total turnaround equals total waiting plus total burst. |
| Metrics.WaitingNonNegative | script.js:146-157 | With no early start, every waiting time is non-negative, every turnaround covers its burst, and the total waiting time is non-negative. |

## Left out

- DOM lookups, event listeners and form handling are not modelled: they are UI plumbing. This includes `parseInt`, the `|| 1` priority default, `Date.now()` ids, and `removeProcess` and reset (script.js:1-135).
- Rendering of tables, HTML strings and analysis notes is not modelled: it is presentation only.
- The averages `total / finished.length` with `toFixed(2)` are not modelled: they are floating-point display work. The integer totals they divide are modelled.
- The Gantt chart's width percentages and pixel scaling are not modelled: they are floating-point display work. `Schedule.TimelineCoversMakespan` states what the percentages rely on.
- The comparator of the pid display sort, `parseInt(pid.slice(1))`, is not modelled: it parses strings. `Metrics.DisplayTotals` takes the sorted table as any rearrangement of `finished`, which is all the totals depend on.
- `solveFCFS` sorts its argument in place, and the ready-queue loop sorts `readyQueue` in place before the `shift`. The model reassigns the sorted value instead. Every caller passes a fresh copy (`[...processes]`, script.js:127-131), so the in-place update is not observable.
- The `id` time stamp of a process is not modelled: it only serves the delete button, and the records that `finished` spreads it into never read it.
- The engine's sort algorithm itself is not modelled. `StableSort` stands for it, and `StableSortUnique` shows that every stable sort with these comparators gives the same result.
- The wrap-around and precision limits of JavaScript numbers are not modelled: every quantity is a small integer sum, and Dafny integers are unbounded.

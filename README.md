# ThreadScheduler lane pool, modelled in Dafny

The library spreads tasks over a fixed pool of serial dispatch queues
("lanes"). `ThreadSchedulingManager` keeps one counter of scheduled tasks per
lane and a cursor `lastUpdatedScheduler` (initially -1). To place a task it
takes the round-robin candidate `(cursor + 1) % n`. If the candidate's counter
is positive, it hands the task to a lane that a `sort` by counter puts first.
The cursor is written and a counter is raised by one. When the task has run,
`cleanupTask` lowers the counter of the lane named by the last character of
the running queue's label `"Scheduler_" + index`. That is the lane the task
ran on only for lanes 0 to 9: a task on lane 11 lowers lane 1's counter.
Every lane carries sticky data from an optional data source. The data is
read back by `getDataForCurrentThread`. `ThreadSchedulerFactory` is a
get-or-create registry: each non-empty identifier maps to one pool.

Modules:

- `Wrappers`: `Option`, for Swift's optionals.
- `Labels`: lane labels, the decimal rendering of an index, the last-character
  read-back, and a full parse of the label used as the reference.
- `Balancing`: the pool's counters and cursor as a value (`PoolState`). It
  defines the selection and completion transitions as the code performs them,
  and the lemmas about one step and about sequences of steps.
- `Intended`: the corrected selection and completion (see "## Findings"), with
  the per-lane invariant that the counters exist for: the code raises a
  count "so that the same dispatcher is not allocated always"
  (`Scheduler.swift:128-130`), so the count is meant for the lane that
  receives the task.
- `Scheduler`: class `ThreadSchedulingManager<D>`. It has a constant lane list,
  an `array<int>` of counters and the cursor. Its methods are proved against
  `Balancing`. A ghost multiset `pending` records the lanes of outstanding
  tasks, and `Valid()` keeps the sum of the counters equal to its size.
- `Factory`: class `ThreadSchedulerFactory<D>`. Its dictionary field stands for
  the static `threadSchedulerDictionary`.

Points where the model keeps the code's exact behaviour, including where it differs from what its labels and its counter comment suggest:

- On a busy candidate, the code reads the index back from the candidate's label, not
  the least-loaded lane's. So the candidate (or its last digit) becomes the
  cursor and is charged, while the least-loaded lane receives the task.
  Per-lane counters are therefore not always non-negative; only their sum is
  invariant (`Balancing.NegativeCounterTrace`).
- The minimum is whatever an unstable sort puts first. Ties are left open
  (`Chosen`), not resolved to the lowest index.
- A counter that is negative counts as idle: the code tests `> 0`, not `== 0`.
- A lane count below 1 is not rejected but traps in `0...(count - 1)`; this is
  a precondition.
- `getDataForCurrentThread` traps only when the current queue's label does not
  end in a digit (the force unwrap) or ends in a digit that is no lane of the
  pool (the index out of range); both are preconditions. Any other label, on a
  lane or not, reads the data of the lane its last digit names: from a queue
  labelled "worker2" in a pool of three lanes it returns lane 2's data.
- Lane identity is the label's last character, not a lookup of the queue.

## Model

| member | source | states |
|---|---|---|
| `Scheduler.ThreadSchedulingManager.constructor` | ThreadScheduler/Schedulers/Scheduler.swift:54-59 | requires count >= 1; makes `count` lanes; lane i's data is `getData(name, i)`, or None without a data source; every counter is 0, the cursor is -1, nothing is pending |
| `Scheduler.LaneData` | ThreadScheduler/Schedulers/Scheduler.swift:73 | a lane's data is the data source's `getData(identifier, index)`, and None when there is no data source |
| `Scheduler.CreateSchedulingData` | ThreadScheduler/Schedulers/Scheduler.swift:70-77 | the record of lane i has a label that parses back, in full, to i and whose last character reads back as i % 10, and the data source's data for i |
| `Scheduler.ThreadSchedulingManager.CreateSchedulers` | ThreadScheduler/Schedulers/Scheduler.swift:61-77 | requires number >= 1, as `0...(number - 1)` traps below that; returns exactly `number` lanes in index order; lane i has label `Label(i)` and the data source's data for i |
| `Scheduler.ThreadSchedulingManager.EnqueueTask` | ThreadScheduler/Schedulers/Scheduler.swift:83-88 | with no lane: None, nothing changes; otherwise one selection: the returned lane is an allowed choice and the state is `AfterSelect` of the old state |
| `Scheduler.ThreadSchedulingManager.GetNextScheduler` | ThreadScheduler/Schedulers/Scheduler.swift:110-137 | the lane handed out is the candidate, or a least-loaded lane when the candidate is busy; cursor and counters become `AfterSelect(old state)`; one task is added to `pending`; the counter sum stays equal to the number of pending tasks |
| `Scheduler.ThreadSchedulingManager.GetIndexForScheduler` | ThreadScheduler/Schedulers/Scheduler.swift:150-155 | the result is Some exactly when the label's last character is a digit, and then that digit's value (below 10); for the queue of lane i it is i % 10 |
| `Scheduler.ThreadSchedulingManager.CleanupTask` | ThreadScheduler/Schedulers/Scheduler.swift:104-108 | lowers by one the counter of the lane read back from the current label; no change when the last character is not a digit |
| `Scheduler.ThreadSchedulingManager.Complete` | ThreadScheduler/Schedulers/Scheduler.swift:90-108 | a task handed out on `lane` finishes: counters become `AfterComplete(old state, lane)`; the task leaves `pending`; the cursor is unchanged; the sum invariant is kept |
| `Scheduler.ThreadSchedulingManager.GetDataForCurrentThread` | ThreadScheduler/Schedulers/Scheduler.swift:157-161 | returns the data of the lane read back from the current label: on lane i that is lane i % 10's data, and lane i's own data when the pool has at most ten lanes; off-lane labels that trap are excluded |
| `Labels.LastCharIndex` | ThreadScheduler/Schedulers/Scheduler.swift:143-148 | a non-empty label's read-back index is a single digit, below 10, or None |
| `Labels.DigitValue` | ThreadScheduler/Schedulers/Scheduler.swift:146-147 | a one-character string parses exactly when it is an ASCII digit, to a value below 10 |
| `Labels.Decimal` | ThreadScheduler/Schedulers/Scheduler.swift:71 | the rendering of an index is a non-empty string of digits |
| `Labels.DecimalRoundTrip` | ThreadScheduler/Schedulers/Scheduler.swift:71 | parsing the decimal rendering of n gives back n |
| `Labels.Label` | ThreadScheduler/Schedulers/Scheduler.swift:45-71 | the label of lane i is "Scheduler_" followed by at least one character, and ends in the digit i % 10 |
| `Labels.LabelInjective` | ThreadScheduler/Schedulers/Scheduler.swift:71-72 | two lanes with equal labels are the same lane |
| `Labels.LastCharIndexOfLabel` | ThreadScheduler/Schedulers/Scheduler.swift:150-155 | the label of lane i reads back as i % 10 |
| `Labels.LastCharIndexOfSmallLabel` | ThreadScheduler/Schedulers/Scheduler.swift:150-155 | lanes 0 to 9 read back as themselves |
| `Labels.LastCharIndexInPool` | ThreadScheduler/Schedulers/Scheduler.swift:119-120 | a lane of an n-lane pool always reads back as some lane of that pool, so the indexing after the read-back cannot trap |
| `Labels.LastCharIndexAliasesLane11` | ThreadScheduler/Schedulers/Scheduler.swift:143-148 | lane 11 has its own label but reads back as lane 1 |
| `Labels.LabelLaneIndexRoundTrip` | ThreadScheduler/Schedulers/Scheduler.swift:71 | parsing a label after its prefix gives back the lane index, for every index |
| `Balancing.Fresh` | ThreadScheduler/Schedulers/Scheduler.swift:47-48 | a new pool of n lanes has every counter 0 and the cursor -1, so its first candidate is lane 0 |
| `Balancing.Candidate` | ThreadScheduler/Schedulers/Scheduler.swift:112 | the candidate is the lane after the cursor, wrapping from the last lane to lane 0 |
| `Balancing.ChargedLane` | ThreadScheduler/Schedulers/Scheduler.swift:112-126 | the lane that becomes the cursor and is charged is always a lane of the pool |
| `Balancing.CleanupCounts` | ThreadScheduler/Schedulers/Scheduler.swift:105-106 | only the read-back lane's counter changes, by -1; nothing changes without a digit |
| `Balancing.SumOfZeros` | ThreadScheduler/Schedulers/Scheduler.swift:32 | a fresh pool's counters sum to 0 |
| `Balancing.SumUpdate` | ThreadScheduler/Schedulers/Scheduler.swift:132 | changing one counter changes the sum by the difference |
| `Balancing.LeastLoadedExists` | ThreadScheduler/Schedulers/Scheduler.swift:116-117 | every non-empty lane list has a lane of minimal counter: what the sort puts first |
| `Balancing.Chosen` | ThreadScheduler/Schedulers/Scheduler.swift:112-121 | a lane that may be handed out is a lane of the pool, and if its counter is positive it holds the minimum |
| `Balancing.AfterSelect` | ThreadScheduler/Schedulers/Scheduler.swift:112-132 | after a selection the cursor is the candidate or the candidate's last digit, and only the new cursor's counter changes, by +1 |
| `Balancing.SelectOutcome` | ThreadScheduler/Schedulers/Scheduler.swift:115-132 | the candidate's last digit with a least-loaded lane (busy), or the candidate twice (otherwise), is exactly an allowed choice and the transition `AfterSelect` |
| `Balancing.AfterComplete` | ThreadScheduler/Schedulers/Scheduler.swift:104-108 | after a task on lane l finishes, only lane l % 10's counter changes, by -1, and the cursor stays |
| `Balancing.SelectIdle` | ThreadScheduler/Schedulers/Scheduler.swift:112-115 | with the candidate's counter not positive, the only lane handed out is the candidate; it becomes the cursor and only its counter rises by 1 |
| `Balancing.SelectBusy` | ThreadScheduler/Schedulers/Scheduler.swift:115-136 | with the candidate's counter positive, exactly the lanes whose counter is at most every lane's may be handed out; the cursor becomes candidate % 10 and that lane's counter rises |
| `Balancing.SelectionPossible` | ThreadScheduler/Schedulers/Scheduler.swift:113-121 | some lane can always be handed out |
| `Balancing.BusyLaneOnlyIfLeastLoaded` | ThreadScheduler/Schedulers/Scheduler.swift:115-121 | a lane with a positive counter is handed out only if it holds the minimum |
| `Balancing.CursorRoundRobin` | ThreadScheduler/Schedulers/Scheduler.swift:119-126 | with at most ten lanes the cursor always moves to (cursor + 1) % n, whatever the loads |
| `Balancing.SelectRaisesSum` | ThreadScheduler/Schedulers/Scheduler.swift:126-132 | a selection changes only the new cursor's counter, and the sum rises by 1 |
| `Balancing.CompleteLowersSum` | ThreadScheduler/Schedulers/Scheduler.swift:104-108 | a completion on lane l changes only lane l % 10's counter, by -1; the sum drops by 1 and the cursor is unchanged |
| `Balancing.FreshSelections` | ThreadScheduler/Schedulers/Scheduler.swift:48 | after k <= n selections on a fresh pool, lanes 0..k-1 hold 1, the others 0, and the cursor is k-1 |
| `Balancing.FreshPoolIsRoundRobin` | ThreadScheduler/Schedulers/Scheduler.swift:112-115 | on a fresh n-lane pool the k-th selection (k < n) hands out lane k and only lane k |
| `Balancing.IdleRound` | ThreadScheduler/Schedulers/Scheduler.swift:104-132 | with at most ten lanes all at 0, one submit-and-finish on the candidate leaves every counter 0 and the candidate as cursor |
| `Balancing.SequentialState` | ThreadScheduler/Schedulers/Scheduler.swift:104-132 | with at most ten lanes used one task at a time, after k tasks every counter is 0 and the cursor is (k - 1) % n (-1 before the first) |
| `Balancing.SequentialUseIsRoundRobin` | ThreadScheduler/Schedulers/Scheduler.swift:104-136 | with at most ten lanes, finishing each task before the next, the k-th task goes to lane k % n and every counter stays 0 |
| `Balancing.NegativeCounterTrace` | ThreadScheduler/Schedulers/Scheduler.swift:119-121 | on two lanes, submit, submit, finish the second, submit, finish the third leaves lane 1's counter at -1 and lane 0's at 2 |
| `Intended.IntendedSelect` | ThreadScheduler/Schedulers/Scheduler.swift:115-126 | corrected selection: hands out the same lanes as the code allows, and the lane handed out becomes the cursor and is the one charged |
| `Intended.IntendedComplete` | ThreadScheduler/Schedulers/Scheduler.swift:104-108 | corrected completion: the lane the task ran on, named by its full label, loses one |
| `Intended.FreshPoolTracks` | ThreadScheduler/Schedulers/Scheduler.swift:32 | a fresh pool's counters match an empty set of outstanding tasks |
| `Intended.IntendedSelectKeepsTracking` | ThreadScheduler/Schedulers/Scheduler.swift:110-137 | corrected selection keeps every counter equal to the tasks outstanding on its lane, hence non-negative |
| `Intended.IntendedCompleteKeepsTracking` | ThreadScheduler/Schedulers/Scheduler.swift:104-108 | corrected completion keeps that equality, hence non-negative counters |
| `Factory.ThreadSchedulerFactory.constructor` | ThreadScheduler/Schedulers/SchedulerFactory.swift:12 | the registry starts empty |
| `Factory.ThreadSchedulerFactory.GetScheduler` | ThreadScheduler/Schedulers/SchedulerFactory.swift:25-45 | an empty identifier gives nil, dictionary unchanged; a known one its stored pool, dictionary unchanged, count and data source ignored; an unknown one a fresh pool from (count, identifier, data source), stored under it; the dictionary only grows and other entries never change |
| `Factory.ThreadSchedulerFactory.GetSchedulerTwice` | ThreadScheduler/Schedulers/SchedulerFactory.swift:33-43 | two lookups of the same non-empty identifier return the same pool, whatever the later count and data source |
| `Factory.ThreadSchedulerFactory.GetSchedulerWithDefaultCount` | ThreadScheduler/Schedulers/SchedulerFactory.swift:13-26 | a pool created without a count has 10 lanes |

## Findings

| source | as written | input that shows it | evidently intended | confidence | as-written member | corrected member |
|---|---|---|---|---|---|---|
| ThreadScheduler/Schedulers/Scheduler.swift:119-121 | on a busy candidate the index is read back from the candidate `scheduler`, so the candidate is charged and recorded while `currentScheduler`'s queue receives the task | two lanes: submit, submit, second finishes, submit, third finishes; lane 1's counter ends at -1 and lane 0's at 2 with one task outstanding | read the index back from `currentScheduler`, so the lane handed out is the lane charged | not executed | `Balancing.NegativeCounterTrace` | `Intended.IntendedSelectKeepsTracking` |
| ThreadScheduler/Schedulers/Scheduler.swift:143-155 | the lane index is the last character of the label only | a pool of twelve lanes: a task on lane 11 lowers lane 1's counter, and reads lane 1's data | read the whole index after "Scheduler_" | not executed | `Labels.LastCharIndexAliasesLane11` | `Labels.LabelLaneIndexRoundTrip` |

The pool class `Scheduler.ThreadSchedulingManager` keeps the code's
behaviour, because that is what the library does. The corrected transitions
in `Intended` use `Labels.LabelLaneIndex`. They are proved to keep every
counter equal to its lane's outstanding tasks.

## Left out

- Dispatch queues and GCD (`dispatch_queue_create`, `dispatch_async`, the main queue, `DISPATCH_CURRENT_QUEUE_LABEL`): a queue is its label and its lane index, and the current queue is a label passed in; the host runtime is not part of this model.
- Running the task closure and delivering the callback on the main queue: tasks, inputs, results and callbacks are host concurrency and I/O; only the select and complete events are modelled (`EnqueueTask`, `Complete`).
- `objc_sync_enter`/`objc_sync_exit` and the unlocked decrement in `cleanupTask`: each operation is one atomic sequential step, so races between lanes are not modelled.
- `reset()`: its body is empty, so it has no behaviour to model.
- The `Any?` payload: it is a type parameter `D` behind `Option<D>`, and the data source protocol is a function `(string, int) -> Option<D>`.
- Swift `Int` overflow of a counter (trap at 2^63 - 1): counters are unbounded integers.
- Concurrent get-or-create races in the registry: the dictionary is one object's field, changed by one call at a time.
- `ThreadScheduler/Examples/SchedulerExample.swift`: sample client code that prints; it is not part of this model.
- The sum of the counters under the corrected transitions in `Intended`: only the per-lane equality with the outstanding tasks is proved there.

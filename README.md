# scheduledworker, modelled in Dafny

This project models the sequential core of `scheduledworker`, an in-memory
scheduler for recurring tasks. The model has three modules, one per source
file, plus a one-line `Wrappers` module for `Option`:

- **`Queue`** (`queue.dfy`) models `queue.go`. `PriorityQueue<T>` is a
  slice-backed binary min-heap of items keyed by a due instant.
  - The raw heap-interface methods `Len`, `Less`, `Swap`, `Push` and `Pop`
    work on the slice as it stands. `Peek` returns the root or `None` (Go's
    `nil`).
  - `PushItem` and `PopItem` are `heap.Push` and `heap.Pop` from
    `container/heap`. Their sift-up and sift-down loops are written out as
    `Up` and `Down`, over the `items` sequence that the methods reassign.
- **`Options`** (`options.dfy`) models `option.go`. It holds the recurrence
  record `{repeat, every, until}`, the sentinel `Forever`, and the option
  builders.
  - Each option is a constructor of `TaskOpt`.
  - `Apply` runs the closure body of one option on the record.
  - `ApplyAll` folds the options left to right, as `Submit` does.
- **`ScheduledWorker`** (`scheduledworker.dfy`) models `scheduledworker.go`
  with the concurrency taken out. The `Worker` class has these fields:
  - its queue, a `PriorityQueue<Task>` keyed by each task's due time;
  - the `closed` flag and `maxWorker`;
  - a `started` flag for the `sync.Once` in `Start`;
  - `history`, the log of what `process` does: `Run(t)` when t's callable is
    handed to a goroutine, and `Wait` for `wg.Wait()`.

  `Tick(now)` is one ticker case of the run loop: `getTasks`, then `process`,
  then the termination test. `Close` is the close case.

Instants and durations are integers, and 0 plays the part of Go's zero
`time.Time` (`IsZero`). The clock `time.Now()` becomes a parameter `now`.

Alongside the methods, specification functions state what the code is meant
to do, and lemmas prove facts about them:

- `Next` is the recurrence rule of `postProcess`.
- `Firings` counts how often a task runs on a worker that stays open.
- `Rescheduled` and `Reinserted` give what a batch puts back into the queue.
- `Batches` gives the events `process` produces.
- `Executed` and `Bounded` read those events back: which tasks ran, and at
  most how many between two waits.

Each method's `ensures` ties its effect to these functions.

`getTasks` drains only the tasks due **strictly before** now
(`currentTime.After(At)`). A task due exactly at now stays queued until the
next tick.

## Model

| member | source | states |
|---|---|---|
| Queue.PriorityQueue.constructor | queue.go:13 | a new queue holds no entries |
| Queue.PriorityQueue.Len | queue.go:15 | the count is the slice length, and it is 0 exactly when Peek finds nothing |
| Queue.PriorityQueue.Less | queue.go:17-19 | position i is Less than j exactly when i is due strictly before j; equal instants are not Less |
| Queue.PriorityQueue.Swap | queue.go:21-23 | the slice afterwards is the old slice with positions i and j exchanged; the length and every other position are unchanged |
| Queue.PriorityQueue.Push | queue.go:33-36 | the slice afterwards is the old slice with x appended |
| Queue.PriorityQueue.Pop | queue.go:38-45 | on a non-empty slice, returns the last slot; the rest is the old prefix; the entries lose exactly the returned one |
| Queue.PriorityQueue.Peek | queue.go:47-52 | None exactly when empty, otherwise slot 0; on a heap that entry is due no later than any entry |
| Queue.PriorityQueue.Up | queue.go:25-27 | sift-up from a slice that is a heap except at j0 yields a heap with the same entries |
| Queue.PriorityQueue.Down | queue.go:29-31 | sift-down within the prefix of length n yields heap order on that prefix; slots from n on and the entries are unchanged |
| Queue.PriorityQueue.PushItem | queue.go:25-27 | a heap stays a heap; the length grows by one and the entries by exactly x; an x due strictly before every entry becomes what Peek returns |
| Queue.PriorityQueue.PopItem | queue.go:29-31 | on a non-empty heap, returns the old root, which is due no later than any entry; removes exactly it; the rest is a heap |
| Queue.HeapRootIsMin | queue.go:29-31 | the root of a heap is due no later than any position |
| Queue.StrictMinIsRoot | queue.go:25-27 | an entry due strictly before all others in a heap is at the root |
| Queue.NextPopNotEarlier | queue.go:29-31 | after a minimum entry is removed, everything left is due no earlier: successive pops come out in non-decreasing order |
| Options.Apply | option.go:15-38 | one option applied to a record: Repeat sets the count, Every sets the interval and turns a zero count into Forever, Until sets the cutoff; every other field is kept |
| Options.Repeat | option.go:15-19 | Repeat(n) sets the count to n and keeps the interval and cutoff |
| Options.RepeatForever | option.go:21-23 | RepeatForever acts as Repeat(Forever) on every record, giving count -1 |
| Options.Every | option.go:25-32 | Every(d) sets the interval, keeps the cutoff, turns a zero count into Forever and keeps any other count |
| Options.Until | option.go:34-38 | Until(t) sets the cutoff and nothing else |
| Options.EveryIdempotent | option.go:25-32 | applying Every(d) twice equals applying it once |
| Options.ApplyAllAppend | scheduledworker.go:51-54 | folding a concatenation of options folds the second part onto the result of the first |
| Options.ApplyAll | scheduledworker.go:51-54 | folding the options in order: a field that no option in the list touches keeps its value, a list of only Until options keeps the count, and a one-option list acts as that option |
| Options.EveryThenRepeat | option.go:15-32 | Every(d) then Repeat(n) on a fresh record gives exactly count n and interval d, even for n = 0 |
| Options.RepeatThenEvery | option.go:15-32 | a non-zero Repeat(n) then Every(d) gives count n; Every(d) alone gives count Forever |
| ScheduledWorker.Submitted | scheduledworker.go:50-62 | a zero due time becomes now, whatever the interval; a non-zero one is kept; the record is the options folded onto a zero record; the callable is kept |
| ScheduledWorker.Next | scheduledworker.go:158-174 | a reinserted copy has a non-zero count, is due at now + every and not after a non-zero cutoff, and keeps callable, interval and cutoff; a count of 0 or 1 is never reinserted |
| ScheduledWorker.NextReschedules | scheduledworker.go:158-174 | a task is reinserted exactly when its count is neither 0 nor 1 and now + every is not after a non-zero cutoff; the copy is due at now + every, keeps callable, interval and cutoff, and has one run fewer unless the count is Forever |
| ScheduledWorker.ForeverStopsOnlyAtCutoff | scheduledworker.go:159-171 | a Forever count is never used up: without a cutoff the task always comes back with count Forever, with one it stops exactly when the next due time is after the cutoff |
| ScheduledWorker.RepeatFiresExactly | scheduledworker.go:158-174 | on a worker that stays open, a count n >= 1 without a cutoff runs exactly n times |
| ScheduledWorker.NegativeRepeatNeverStops | scheduledworker.go:158-174 | a negative count without a cutoff runs at every instant offered |
| ScheduledWorker.SubmittedRepeatFires | scheduledworker.go:50-65 | on a worker that stays open, a task submitted with Repeat(n), n >= 1, alone or followed by Every(d), runs exactly n times, and one submitted with no options runs once |
| ScheduledWorker.ReinsertedIsRescheduled | scheduledworker.go:151 | an open worker puts back, for a prefix of the batch, exactly the entries of the rescheduled copies |
| ScheduledWorker.ReinsertedSplit | scheduledworker.go:141-155 | what is put back for two adjacent stretches of the batch adds up to what is put back for both together |
| ScheduledWorker.GroupEnd | scheduledworker.go:142 | a group ends within the batch, after at most m tasks; it is empty when m <= 0 and non-empty when m >= 1 and tasks remain |
| ScheduledWorker.ExecutedRuns | scheduledworker.go:142-153 | the Run events of a stretch of the batch run exactly that stretch, in order |
| ScheduledWorker.ExecutedBatchesFrom | scheduledworker.go:141-155 | the events from a position on run every remaining task exactly once, in batch order |
| ScheduledWorker.ExecutedBatches | scheduledworker.go:138-156 | process runs every task of its batch exactly once, in batch order |
| ScheduledWorker.BoundedBatchesFrom | scheduledworker.go:141-155 | from any position on, at most maxWorker tasks are started between two waits |
| ScheduledWorker.BatchesAreBounded | scheduledworker.go:138-156 | at most maxWorker tasks are started between two waits, and a non-empty batch ends with a wait |
| ScheduledWorker.LastIsWait | scheduledworker.go:141-155 | the events from any position inside the batch end with a wait |
| ScheduledWorker.DrainStep | scheduledworker.go:128-134 | popping the minimum keeps the drained tasks due before now and in non-decreasing order, and none of them later than what is left |
| ScheduledWorker.DrainCount | scheduledworker.go:128-134 | one pop moves exactly one entry from the queue to the drained tasks |
| ScheduledWorker.Worker.constructor | scheduledworker.go:40-48 | a new worker has an empty queue, the default limit 10, is not closed, not started, and has done nothing |
| ScheduledWorker.Worker.Submit | scheduledworker.go:50-65 | a closed worker's queue is unchanged; otherwise it gains exactly the entry of the submitted task, due at its Submitted time |
| ScheduledWorker.Worker.Start | scheduledworker.go:67-70 | the run loop is launched only by the first call |
| ScheduledWorker.Worker.Close | scheduledworker.go:75-76 | the close event of a started worker's run loop only sets closed |
| ScheduledWorker.Worker.SetMaxWorker | scheduledworker.go:93-98 | the limit becomes count |
| ScheduledWorker.Worker.SetQueue | scheduledworker.go:100-109 | the old queue ends empty; the new queue holds its own entries plus every old one and is the worker's queue |
| ScheduledWorker.Worker.InsertTask | scheduledworker.go:111-120 | a closed worker drops the task; an open one's queue gains exactly its entry |
| ScheduledWorker.NothingDue | scheduledworker.go:122-136 | a non-empty drain holds a queued entry due before now, so a queue with nothing due before now drains to an empty batch |
| ScheduledWorker.Worker.GetTasks | scheduledworker.go:122-136 | returns only tasks due strictly before now, in non-decreasing due order; everything left is due at or after now; returned plus left equals the queue before |
| ScheduledWorker.Worker.Process | scheduledworker.go:138-156 | the events are exactly the batch in groups of maxWorker, each followed by a wait; the queue gains exactly the reinserted entries |
| ScheduledWorker.Worker.StartGroup | scheduledworker.go:142-153 | the inner loop starts min(maxWorker, remaining) tasks, none when maxWorker <= 0, post-processing each once, in order |
| ScheduledWorker.Worker.PostProcess | scheduledworker.go:158-174 | the queue gains the next occurrence of the task when an open worker's recurrence rule gives one, and nothing otherwise |
| ScheduledWorker.Worker.Tick | scheduledworker.go:77-83 | the batch is exactly the queued entries due strictly before now, in due order, and every entry left behind is due at or after now; the batch runs in groups; the queue ends as the entries left behind plus what the batch reinserts; terminated exactly when closed and the queue is empty |

## Left out

- Goroutines, `sync.WaitGroup`, `sync.Mutex` and `sync.Once` are left out. `process` is a sequential loop. Starting a callable is a `Run` event and the barrier is a `Wait` event. `Start`'s once-only behaviour is the `started` flag, and `Tick` and `Close` require it, since both are cases of the run loop that `Start` launches.
- The unlocked read of `closed` in `insertTask`, and data races in general, are not modelled.
- The `close` channel handshake in `run` and `Stop` is not modelled. That includes the deadlock when `Stop` comes before `Start`. The model has `Close` for the close event and `Tick`'s `terminated` result for the return of the run loop.
- `time.Ticker` and `SetDuration` are timer plumbing and are left out. Each tick is one call of `Tick`.
- `time.Now()` is the parameter `now`. The source reads the clock separately in `getTasks` and in each `postProcess`; the model uses one instant for a whole tick.
- Task bodies `Fn` are foreign code, and so is their panic and recover. A callable is an opaque token and its run an event. A body may itself call `Submit` on the worker, as `TestScheduledWorker_Recursion` in scheduledworker_test.go:60-85 does; the model shows such submissions only as separate `Submit` calls between ticks, not as happening inside a run.
- The `Queue` interface and `NewPriorityQueue` are not part of this model. The worker's queue is the heap of `queue.go`, holding `Item(task, task.at)` entries (the `Keyed` invariant).
- `container/heap` is not part of this model. Its `up` and `down` are written out as `Up` and `Down`. The Go `down` also stops on an integer overflow of `2*i+1`; that check is left out because integers are unbounded.
- Pointer aliasing is not modelled. `postProcess` changes the popped `*Task` in place before reinserting it; the model builds the new task value, since the popped task is no longer in the queue.
- Integer widths are not modelled: `repeat` is a Go `int`, and `time.Time` and `time.Duration` are 64-bit. Counts and instants are unbounded here, so wrap-around of `now + every` is not modelled.
- ScheduledWorker.Worker.Process: requires `maxWorker >= 1` when the batch is non-empty, because the source never returns then. `StartGroup`'s contract shows the inner loop starting nothing in that case.
- ScheduledWorker.Worker.Tick: requires `maxWorker >= 1` unless no queued entry is due before now, because `process` never returns on a non-empty batch when `maxWorker <= 0`; the contract shows the batch is empty in the allowed case.
- ScheduledWorker.Worker.SetQueue: requires the new queue to be a different object from the current one, unless the current one is empty. With the same non-empty queue the source pops and pushes the same entry forever; with the same empty queue the loop does not run, and the model allows that call.
- ScheduledWorker.Worker.GetTasks: the source also stops when `Pop` returns nil. That cannot follow a non-nil `Peek`, so the model has no such branch.
- ScheduledWorker.Firings: counts runs assuming each reinserted copy runs again, at the next instant of a given list. It does not model when the ticks that drain it fall. It also does not model `closed`: once the worker is closed, `insertTask` drops the next copy (scheduledworker.go:112-114), and a task submitted after closing never runs. The worker methods do model this, through `Reinserted` and `Submit`.

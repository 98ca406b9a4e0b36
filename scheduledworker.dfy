/**
 The scheduled worker with its concurrency taken out. A worker owns a pending
 queue of tasks ordered by due time, a closed flag and a concurrency limit.
 One tick of its run loop drains every task due strictly before now, runs the
 batch in groups of at most maxWorker tasks, reschedules each task according
 to its recurrence record, and reports termination once the worker is closed
 and the queue is empty. The clock is a parameter `now`; running a task's
 callable is recorded as an event in `history`.
 */
module ScheduledWorker {
  import opened Wrappers
  import opened Options
  import opened Queue

  const DefaultMaxWorker: int := 10

  /** A unit of work: when it is due, its callable (an opaque token, as the
      callable's body is foreign code) and its recurrence record. */
  datatype Task = Task(at: Time, fn: nat, opt: TaskOptions)

  /** What process does, in order: Run(t) hands t's callable to a goroutine
      (whose panic is recovered and ignored); Wait is the wg.Wait barrier. */
  datatype Event = Run(task: Task) | Wait

  /** The queue entry of a task: the Queue interface keys tasks by At. */
  function Entry(t: Task): Item<Task> {
    Item(t, t.at)
  }

  function Entries(ts: seq<Task>): seq<Item<Task>> {
    seq(|ts|, k requires 0 <= k < |ts| => Entry(ts[k]))
  }

  /** Every entry of the queue is keyed by its own task's due time. */
  ghost predicate Keyed(s: seq<Item<Task>>) {
    forall x :: x in s ==> x == Entry(x.task)
  }

  // ---------------------------------------------------------------------------
  // Submission

  /** The task Submit stores: the options folded, in order, onto a fresh zero
      record, and a zero due time replaced by now. The interval is added to a
      copy that is then discarded, so it never moves the first firing: a task
      without a due time is first due now whatever its interval, an explicit
      due time is kept, and the caller's own record is replaced. */
  function Submitted(task: Task, opts: seq<TaskOpt>, now: Time): (r: Task)
    ensures task.at == 0 ==> r.at == now
    ensures task.at != 0 ==> r.at == task.at
    ensures r.opt == ApplyAll(opts, Zero) && r.fn == task.fn
  {
    Task(if task.at == 0 then now else task.at, task.fn, ApplyAll(opts, Zero))
  }

  // ---------------------------------------------------------------------------
  // Recurrence: the rule of postProcess

  /** The task postProcess reinserts after a run at `now`, or None when it
      stops: the count drops by one unless it is Forever or 0, a count of 0
      stops, and otherwise the task is due at now + every unless that is
      after a non-zero cutoff. */
  function Next(t: Task, now: Time): (r: Option<Task>)
    ensures r.Some? ==> r.value.opt.repeat != 0
    ensures r.Some? ==> r.value.at == now + t.opt.every && (t.opt.until == 0 || r.value.at <= t.opt.until)
    ensures r.Some? ==> r.value.fn == t.fn && r.value.opt.every == t.opt.every && r.value.opt.until == t.opt.until
    ensures t.opt.repeat == 0 || t.opt.repeat == 1 ==> r.None?
  {
    var repeat := if t.opt.repeat != Forever && t.opt.repeat != 0 then t.opt.repeat - 1 else t.opt.repeat;
    var at := now + t.opt.every;
    if repeat == 0 then None
    else if t.opt.until != 0 && at > t.opt.until then None
    else Some(Task(at, t.fn, t.opt.(repeat := repeat)))
  }

  /** A task is rescheduled exactly when its count is neither 0 nor 1 and the
      next due time is within the cutoff; the copy is due `every` after now,
      keeps its callable, interval and cutoff, and has one run fewer unless
      its count is Forever. */
  lemma NextReschedules(t: Task, now: Time)
    ensures Next(t, now).Some? <==>
      t.opt.repeat != 0 && t.opt.repeat != 1 && !(t.opt.until != 0 && now + t.opt.every > t.opt.until)
    ensures Next(t, now).Some? ==>
      var u := Next(t, now).value;
      && u.at == now + t.opt.every
      && u.fn == t.fn
      && u.opt.every == t.opt.every
      && u.opt.until == t.opt.until
      && u.opt.repeat == (if t.opt.repeat == Forever then Forever else t.opt.repeat - 1)
  {
  }

  /** With no cutoff a count of Forever is never used up; with a cutoff it
      stops exactly when the next due time would be after it. */
  lemma ForeverStopsOnlyAtCutoff(t: Task, now: Time)
    requires t.opt.repeat == Forever
    ensures t.opt.until == 0 ==> Next(t, now).Some? && Next(t, now).value.opt.repeat == Forever
    ensures t.opt.until != 0 ==> (Next(t, now).None? <==> now + t.opt.every > t.opt.until)
  {
  }

  /** How many times a task runs on a worker that stays open, when every
      rescheduled copy runs again at the next instant of `nows` (as long as
      there are instants left). A closed worker drops the next copy instead;
      that is what `Reinserted` captures. */
  function Firings(t: Task, nows: seq<Time>): nat
    decreases |nows|
  {
    if nows == [] then 0
    else match Next(t, nows[0])
      case None => 1
      case Some(u) => 1 + Firings(u, nows[1..])
  }

  /** On a worker that stays open, a count of n >= 1 without a cutoff runs
      exactly n times. */
  lemma {:induction false} RepeatFiresExactly(t: Task, nows: seq<Time>)
    requires 1 <= t.opt.repeat <= |nows|
    requires t.opt.until == 0
    ensures Firings(t, nows) == t.opt.repeat
    decreases t.opt.repeat
  {
    if t.opt.repeat > 1 {
      var u := Next(t, nows[0]).value;
      RepeatFiresExactly(u, nows[1..]);
    }
  }

  /** A negative count (Forever, and any other) without a cutoff never stops. */
  lemma {:induction false} NegativeRepeatNeverStops(t: Task, nows: seq<Time>)
    requires t.opt.repeat < 0
    requires t.opt.until == 0
    ensures Firings(t, nows) == |nows|
    decreases |nows|
  {
    if nows != [] {
      NegativeRepeatNeverStops(Next(t, nows[0]).value, nows[1..]);
    }
  }

  /** On a worker that stays open, Submit with Repeat(n), n >= 1, alone or
      followed by Every(d), runs exactly n times; with no options at all it
      runs once. */
  lemma SubmittedRepeatFires(task: Task, n: int, d: Duration, now: Time, nows: seq<Time>)
    requires 1 <= n <= |nows|
    ensures Firings(Submitted(task, [Repeat(n)], now), nows) == n
    ensures Firings(Submitted(task, [Repeat(n), Every(d)], now), nows) == n
    ensures Firings(Submitted(task, [], now), nows) == 1
  {
    assert [Repeat(n)][..0] == [];
    assert ApplyAll([Repeat(n)], Zero) == TaskOptions(n, 0, 0);
    RepeatFiresExactly(Submitted(task, [Repeat(n)], now), nows);
    RepeatThenEvery(d, n);
    RepeatFiresExactly(Submitted(task, [Repeat(n), Every(d)], now), nows);
  }

  /** The entry postProcess adds to an open worker's queue for a task that
      has run: the entry of its next occurrence, if it has one. */
  function Requeued(t: Task, now: Time): multiset<Item<Task>> {
    match Next(t, now)
    case None => multiset{}
    case Some(u) => multiset{Entry(u)}
  }

  /** The tasks that postProcess reinserts for a batch, in batch order. */
  function Rescheduled(ts: seq<Task>, now: Time): seq<Task>
    decreases |ts|
  {
    if ts == [] then []
    else
      Rescheduled(ts[..|ts| - 1], now) + RescheduledOne(ts[|ts| - 1], now)
  }

  /** The tasks postProcess reinserts for one task, as a sequence: its next
      occurrence, if any. The entries of that sequence are Requeued. */
  function RescheduledOne(t: Task, now: Time): (r: seq<Task>)
    ensures |r| <= 1
    ensures multiset(Entries(r)) == Requeued(t, now)
  {
    match Next(t, now) case None => [] case Some(u) => [u]
  }

  lemma EntriesAppend(a: seq<Task>, b: seq<Task>)
    ensures Entries(a + b) == Entries(a) + Entries(b)
  {
  }

  /** The entries postProcess adds to the queue for the tasks ts[lo..hi]:
      none once the worker is closed. */
  function Reinserted(closed: bool, ts: seq<Task>, lo: nat, hi: nat, now: Time): multiset<Item<Task>>
    requires lo <= hi <= |ts|
    decreases hi - lo
  {
    if closed || lo == hi then multiset{}
    else Reinserted(closed, ts, lo, hi - 1, now) + Requeued(ts[hi - 1], now)
  }

  /** An open worker reinserts, for a prefix of the batch, exactly the
      entries of the rescheduled tasks. */
  lemma {:induction false} ReinsertedIsRescheduled(ts: seq<Task>, hi: nat, now: Time)
    requires hi <= |ts|
    ensures Reinserted(false, ts, 0, hi, now) == multiset(Entries(Rescheduled(ts[..hi], now)))
    decreases hi
  {
    if hi > 0 {
      ReinsertedIsRescheduled(ts, hi - 1, now);
      RescheduledPrefix(ts, hi, now);
    } else {
      assert ts[..hi] == [];
    }
  }

  /** Lengthening the prefix by one task adds that task's requeued entry. */
  lemma RescheduledPrefix(ts: seq<Task>, hi: nat, now: Time)
    requires 0 < hi <= |ts|
    ensures multiset(Entries(Rescheduled(ts[..hi], now))) ==
      multiset(Entries(Rescheduled(ts[..hi - 1], now))) + Requeued(ts[hi - 1], now)
  {
    var p := ts[..hi];
    assert p[..|p| - 1] == ts[..hi - 1] && p[|p| - 1] == ts[hi - 1];
    EntriesAppend(Rescheduled(ts[..hi - 1], now), RescheduledOne(ts[hi - 1], now));
  }

  /** The entries reinserted for ts[lo..mid] and for ts[mid..hi] together are
      those reinserted for ts[lo..hi]. */
  lemma {:induction false} ReinsertedSplit(closed: bool, ts: seq<Task>, lo: nat, mid: nat, hi: nat, now: Time)
    requires lo <= mid <= hi <= |ts|
    ensures Reinserted(closed, ts, lo, hi, now) == Reinserted(closed, ts, lo, mid, now) + Reinserted(closed, ts, mid, hi, now)
    decreases hi - mid
  {
    if mid < hi && !closed {
      ReinsertedSplit(closed, ts, lo, mid, hi - 1, now);
    }
  }

  // ---------------------------------------------------------------------------
  // Batches: the events of process

  /** The Run events of the tasks ts[lo..hi], in order. */
  function Runs(ts: seq<Task>, lo: nat, hi: nat): seq<Event>
    requires lo <= hi <= |ts|
    decreases hi - lo
  {
    if lo == hi then [] else Runs(ts, lo, hi - 1) + [Run(ts[hi - 1])]
  }

  /** Where the group that starts at `start` ends: the inner loop of process
      stops after m tasks or at the end of the batch, and never starts when
      m <= 0. */
  function GroupEnd(start: nat, m: int, n: nat): (end: nat)
    requires start <= n
    ensures start <= end <= n
    ensures m <= 0 ==> end == start
    ensures m >= 1 && start < n ==> start < end
    ensures end - start <= m || m <= 0
  {
    if m <= 0 then start else if start + m < n then start + m else n
  }

  /** The events of process from position `start` of the batch on: runs of at
      most m callables, each followed by a Wait. */
  function BatchesFrom(ts: seq<Task>, start: nat, m: int): seq<Event>
    requires start <= |ts|
    requires m >= 1 || start == |ts|
    decreases |ts| - start
  {
    if start == |ts| then []
    else
      var end := GroupEnd(start, m, |ts|);
      Runs(ts, start, end) + [Wait] + BatchesFrom(ts, end, m)
  }

  function Batches(ts: seq<Task>, m: int): seq<Event>
    requires m >= 1 || ts == []
  {
    BatchesFrom(ts, 0, m)
  }

  /** Regrouping an append in exactly the shape the group loop of Process
      produces, so the prover need not rediscover associativity there. */
  lemma SnocAssoc<X>(a: seq<X>, b: seq<X>, x: X)
    ensures a + b + [x] == a + (b + [x])
  {
  }

  /** Closing a group with its Wait: the events so far and the rest of the
      batch are regrouped. It states plain associativity in the exact shape
      Process needs, which keeps that proof cheap. */
  lemma GroupDone(before: seq<Event>, group: seq<Event>, rest: seq<Event>)
    ensures before + group + [Wait] + rest == before + (group + [Wait] + rest)
  {
  }

  /** The tasks run by a stretch of events, in order. */
  function Executed(es: seq<Event>): seq<Task>
    decreases |es|
  {
    if es == [] then []
    else (if es[0].Run? then [es[0].task] else []) + Executed(es[1..])
  }

  lemma {:induction false} ExecutedAppend(a: seq<Event>, b: seq<Event>)
    ensures Executed(a + b) == Executed(a) + Executed(b)
    decreases |a|
  {
    if a == [] {
      assert a + b == b;
    } else {
      assert (a + b)[1..] == a[1..] + b;
      ExecutedAppend(a[1..], b);
    }
  }

  lemma {:induction false} ExecutedRuns(ts: seq<Task>, lo: nat, hi: nat)
    requires lo <= hi <= |ts|
    ensures Executed(Runs(ts, lo, hi)) == ts[lo..hi]
    decreases hi - lo
  {
    if lo < hi {
      ExecutedRuns(ts, lo, hi - 1);
      ExecutedAppend(Runs(ts, lo, hi - 1), [Run(ts[hi - 1])]);
      assert [Run(ts[hi - 1])][1..] == [];
      assert ts[lo..hi - 1] + [ts[hi - 1]] == ts[lo..hi];
    }
  }

  /** Every task of the batch from `start` on is run exactly once, in batch order. */
  lemma {:induction false} ExecutedBatchesFrom(ts: seq<Task>, start: nat, m: int)
    requires start <= |ts|
    requires m >= 1 || start == |ts|
    ensures Executed(BatchesFrom(ts, start, m)) == ts[start..]
    decreases |ts| - start
  {
    if start < |ts| {
      var end := GroupEnd(start, m, |ts|);
      ExecutedAppend(Runs(ts, start, end) + [Wait], BatchesFrom(ts, end, m));
      ExecutedAppend(Runs(ts, start, end), [Wait]);
      ExecutedRuns(ts, start, end);
      ExecutedBatchesFrom(ts, end, m);
      assert Executed([Wait]) == [];
      assert ts[start..end] + ts[end..] == ts[start..];
    }
  }

  /** process runs every task of its batch exactly once, in batch order. */
  lemma ExecutedBatches(ts: seq<Task>, m: int)
    requires m >= 1 || ts == []
    ensures Executed(Batches(ts, m)) == ts
  {
    ExecutedBatchesFrom(ts, 0, m);
  }

  /** No more than m Run events between two Waits, given `run` Runs already
      since the last Wait. */
  ghost predicate Bounded(es: seq<Event>, m: int, run: nat)
    decreases |es|
  {
    if es == [] then true
    else if es[0].Wait? then Bounded(es[1..], m, 0)
    else run + 1 <= m && Bounded(es[1..], m, run + 1)
  }

  /** The Runs of ts[lo..hi] start with that of ts[lo]. */
  lemma {:induction false} RunsFirst(ts: seq<Task>, lo: nat, hi: nat)
    requires lo < hi <= |ts|
    ensures Runs(ts, lo, hi) == [Run(ts[lo])] + Runs(ts, lo + 1, hi)
    decreases hi - lo
  {
    if lo + 1 < hi {
      RunsFirst(ts, lo, hi - 1);
    }
  }

  lemma {:induction false} BoundedGroup(ts: seq<Task>, lo: nat, hi: nat, rest: seq<Event>, m: int, run: nat)
    requires lo <= hi <= |ts|
    requires run + (hi - lo) <= m
    requires Bounded(rest, m, 0)
    ensures Bounded(Runs(ts, lo, hi) + [Wait] + rest, m, run)
    decreases hi - lo
  {
    var es := Runs(ts, lo, hi) + [Wait] + rest;
    if lo == hi {
      assert es == [Wait] + rest;
      assert es[1..] == rest;
    } else {
      RunsFirst(ts, lo, hi);
      assert es[0] == Run(ts[lo]);
      assert es[1..] == Runs(ts, lo + 1, hi) + [Wait] + rest;
      BoundedGroup(ts, lo + 1, hi, rest, m, run + 1);
    }
  }

  lemma {:induction false} BoundedBatchesFrom(ts: seq<Task>, start: nat, m: int)
    requires start <= |ts| && m >= 1
    ensures Bounded(BatchesFrom(ts, start, m), m, 0)
    decreases |ts| - start
  {
    if start < |ts| {
      var end := GroupEnd(start, m, |ts|);
      BoundedBatchesFrom(ts, end, m);
      BoundedGroup(ts, start, end, BatchesFrom(ts, end, m), m, 0);
    }
  }

  /** process starts at most m callables between two waits, and a non-empty
      batch ends with a wait: it returns only after the last group. */
  lemma BatchesAreBounded(ts: seq<Task>, m: int)
    requires m >= 1
    ensures Bounded(Batches(ts, m), m, 0)
    ensures ts != [] ==> |Batches(ts, m)| > 0 && Batches(ts, m)[|Batches(ts, m)| - 1] == Wait
  {
    BoundedBatchesFrom(ts, 0, m);
    if ts != [] {
      LastIsWait(ts, 0, m);
    }
  }

  lemma {:induction false} LastIsWait(ts: seq<Task>, start: nat, m: int)
    requires m >= 1 && start < |ts|
    ensures |BatchesFrom(ts, start, m)| > 0 && BatchesFrom(ts, start, m)[|BatchesFrom(ts, start, m)| - 1] == Wait
    decreases |ts| - start
  {
    var end := GroupEnd(start, m, |ts|);
    if end < |ts| {
      LastIsWait(ts, end, m);
    }
  }

  // ---------------------------------------------------------------------------
  // The worker

  class Worker {
    var maxWorker: int
    var queue: PriorityQueue<Task>
    var closed: bool
    /** Set by the first Start (sync.Once). */
    var started: bool
    /** Everything process has done so far. */
    var history: seq<Event>

    ghost predicate Valid()
      reads this, queue
    {
      queue.Valid() && Keyed(queue.items)
    }

    /** New: an empty queue, the default limit, not closed. */
    constructor ()
      ensures Valid() && fresh(queue)
      ensures queue.items == [] && maxWorker == DefaultMaxWorker
      ensures !closed && !started && history == []
    {
      queue := new PriorityQueue();
      maxWorker := DefaultMaxWorker;
      closed := false;
      started := false;
      history := [];
    }

    method Submit(task: Task, opts: seq<TaskOpt>, now: Time)
      requires Valid()
      modifies queue
      ensures Valid()
      ensures multiset(queue.items) ==
        if closed then old(multiset(queue.items))
        else old(multiset(queue.items)) + multiset{Entry(Submitted(task, opts, now))}
    {
      var opt := Zero;
      for k := 0 to |opts|
        invariant opt == ApplyAll(opts[..k], Zero)
      {
        assert opts[..k + 1][..k] == opts[..k];
        opt := Apply(opts[k], opt);
      }
      assert opts[..|opts|] == opts;
      var t := task.(opt := opt);
      if t.at == 0 {
        // Go adds the interval to a copy of At and drops the result.
        t := t.(at := now);
      }
      InsertTask(t);
    }

    /** Start launches the run loop only the first time it is called. */
    method Start() returns (launched: bool)
      modifies this`started
      ensures started
      ensures launched <==> !old(started)
    {
      launched := !started;
      if !started {
        started := true;
      }
    }

    /** The close event of the run loop: it only sets the flag. The run loop
        exists only once the worker is started. */
    method Close()
      requires started
      modifies this`closed
      ensures closed
    {
      closed := true;
    }

    method SetMaxWorker(count: int)
      modifies this`maxWorker
      ensures maxWorker == count
    {
      maxWorker := count;
    }

    /** Moves every pending task into q and makes q the worker's queue. */
    method SetQueue(q: PriorityQueue<Task>)
      requires Valid()
      requires (q != queue || queue.items == []) && q.Valid() && Keyed(q.items)
      modifies this`queue, queue, q
      ensures queue == q && Valid()
      ensures old(queue).items == []
      ensures multiset(q.items) == old(multiset(q.items)) + old(multiset(queue.items))
    {
      while queue.Len() > 0
        invariant queue == old(queue) && (q != queue || queue.items == [])
        invariant Valid() && q.Valid() && Keyed(q.items)
        invariant multiset(q.items) + multiset(queue.items) == old(multiset(q.items)) + old(multiset(queue.items))
        decreases |queue.items|
      {
        ghost var from := queue.items;
        var item := queue.PopItem();
        assert item in from;
        KeyedAfterRemove(from, queue.items, item);
        assert Entry(item.task) == item;
        ghost var before := q.items;
        q.PushItem(Entry(item.task));
        KeyedAfterAdd(before, q.items, item);
      }
      queue := q;
    }

    method InsertTask(task: Task)
      requires Valid()
      modifies queue
      ensures Valid()
      ensures multiset(queue.items) ==
        if closed then old(multiset(queue.items)) else old(multiset(queue.items)) + multiset{Entry(task)}
    {
      if closed {
        return;
      }
      ghost var before := queue.items;
      queue.PushItem(Entry(task));
      KeyedAfterAdd(before, queue.items, Entry(task));
    }

    /** Drains, in heap order, every task due strictly before now. */
    method GetTasks(now: Time) returns (tasks: seq<Task>)
      requires Valid()
      modifies queue
      ensures Valid()
      ensures forall k :: 0 <= k < |tasks| ==> tasks[k].at < now
      ensures forall k, l :: 0 <= k < l < |tasks| ==> tasks[k].at <= tasks[l].at
      ensures forall x :: x in queue.items ==> now <= x.priority
      ensures multiset(Entries(tasks)) + multiset(queue.items) == old(multiset(queue.items))
    {
      tasks := [];
      // Go also stops on a nil Pop, which cannot follow a non-nil Peek.
      while queue.Peek().Some? && queue.Peek().value.task.at < now
        invariant Valid()
        invariant forall k :: 0 <= k < |tasks| ==> tasks[k].at < now
        invariant forall k, l :: 0 <= k < l < |tasks| ==> tasks[k].at <= tasks[l].at
        invariant tasks != [] ==> forall x :: x in queue.items ==> tasks[|tasks| - 1].at <= x.priority
        invariant multiset(Entries(tasks)) + multiset(queue.items) == old(multiset(queue.items))
        decreases |queue.items|
      {
        ghost var before := queue.items;
        var item := queue.PopItem();
        DrainStep(before, queue.items, item, tasks, now);
        DrainCount(before, queue.items, item, tasks);
        tasks := tasks + [item.task];
      }
      if queue.Peek().Some? {
        forall x | x in queue.items ensures now <= x.priority {
          assert queue.items[0] == Entry(queue.items[0].task);
        }
      }
    }

    /** Runs a batch: groups of at most maxWorker callables, each group
        followed by a wait, and postProcess right after each start. */
    method Process(tasks: seq<Task>, now: Time)
      requires Valid()
      requires maxWorker >= 1 || tasks == []
      modifies this`history, queue
      ensures Valid()
      ensures history == old(history) + Batches(tasks, maxWorker)
      ensures multiset(queue.items) == old(multiset(queue.items)) + Reinserted(closed, tasks, 0, |tasks|, now)
    {
      var count := 0;
      while count < |tasks|
        invariant count <= |tasks|
        invariant Valid()
        invariant history + BatchesFrom(tasks, count, maxWorker) == old(history) + Batches(tasks, maxWorker)
        invariant multiset(queue.items) == old(multiset(queue.items)) + Reinserted(closed, tasks, 0, count, now)
        decreases |tasks| - count
      {
        ghost var start := count;
        ghost var before := history;
        count := StartGroup(tasks, count, now);
        history := history + [Wait];
        GroupDone(before, Runs(tasks, start, count), BatchesFrom(tasks, count, maxWorker));
        ReinsertedSplit(closed, tasks, 0, start, count, now);
        UnionAssoc(old(multiset(queue.items)), Reinserted(closed, tasks, 0, start, now), Reinserted(closed, tasks, start, count, now));
      }
    }

    /** The inner loop of process: starts the callables of at most maxWorker
        tasks from position start, post-processing each right after its start. */
    method StartGroup(tasks: seq<Task>, start: nat, now: Time) returns (count: nat)
      requires Valid()
      requires start <= |tasks|
      modifies this`history, queue
      ensures Valid()
      ensures count == GroupEnd(start, maxWorker, |tasks|)
      ensures history == old(history) + Runs(tasks, start, count)
      ensures multiset(queue.items) == old(multiset(queue.items)) + Reinserted(closed, tasks, start, count, now)
    {
      count := start;
      var i := 0;
      while i < maxWorker && count < |tasks|
        invariant start <= count <= |tasks| && count == start + i
        invariant maxWorker >= 1 ==> i <= maxWorker
        invariant maxWorker <= 0 ==> i == 0
        invariant Valid()
        invariant history == old(history) + Runs(tasks, start, count)
        invariant multiset(queue.items) == old(multiset(queue.items)) + Reinserted(closed, tasks, start, count, now)
        decreases |tasks| - count
      {
        SnocAssoc(old(history), Runs(tasks, start, count), Run(tasks[count]));
        history := history + [Run(tasks[count])];
        UnionAssoc(old(multiset(queue.items)), Reinserted(closed, tasks, start, count, now), if closed then multiset{} else Requeued(tasks[count], now));
        PostProcess(tasks[count], now);
        count := count + 1;
        i := i + 1;
      }
    }

    /** Reinserts a task that has run, following the recurrence rule. */
    method PostProcess(task: Task, now: Time)
      requires Valid()
      modifies queue
      ensures Valid()
      ensures multiset(queue.items) == old(multiset(queue.items)) + (if closed then multiset{} else Requeued(task, now))
    {
      var repeat := task.opt.repeat;
      if repeat != Forever && repeat != 0 {
        repeat := repeat - 1;
      }
      if repeat == 0 {
        return;
      }
      var at := now + task.opt.every;
      if task.opt.until != 0 && at > task.opt.until {
        return;
      }
      InsertTask(Task(at, task.fn, task.opt.(repeat := repeat)));
    }

    /** One tick of the run loop: drain, process, and report termination.
        The batch is exactly the queued entries due strictly before now; the
        rest stays queued, joined by what the batch reinserts. Ticks come only
        from the run loop, which exists once the worker is started. */
    method Tick(now: Time) returns (terminated: bool, batch: seq<Task>, ghost rest: multiset<Item<Task>>)
      requires Valid() && started
      requires maxWorker >= 1 || forall x :: x in queue.items ==> now <= x.priority
      modifies this`history, queue
      ensures Valid()
      ensures old(multiset(queue.items)) == multiset(Entries(batch)) + rest
      ensures forall k :: 0 <= k < |batch| ==> batch[k].at < now
      ensures forall x :: x in rest ==> now <= x.priority
      ensures forall k, l :: 0 <= k < l < |batch| ==> batch[k].at <= batch[l].at
      ensures maxWorker < 1 ==> batch == []
      ensures history == old(history) + Batches(batch, maxWorker)
      ensures multiset(queue.items) == rest + Reinserted(closed, batch, 0, |batch|, now)
      ensures terminated <==> closed && |queue.items| == 0
    {
      ghost var before := multiset(queue.items);
      batch := GetTasks(now);
      rest := multiset(queue.items);
      NothingDue(before, batch, rest, now);
      Process(batch, now);
      terminated := closed && queue.Len() == 0;
    }
  }

  /** A non-empty drain holds an entry that was queued and due before now;
      so when nothing queued is due before now, getTasks drains nothing. */
  lemma NothingDue(before: multiset<Item<Task>>, batch: seq<Task>, rest: multiset<Item<Task>>, now: Time)
    requires before == multiset(Entries(batch)) + rest
    requires forall k :: 0 <= k < |batch| ==> batch[k].at < now
    ensures batch != [] ==> Entry(batch[0]) in before && Entry(batch[0]).priority < now
    ensures (forall x :: x in before ==> now <= x.priority) ==> batch == []
  {
    if batch != [] {
      assert Entries(batch)[0] == Entry(batch[0]);
      assert Entry(batch[0]) in multiset(Entries(batch));
    }
  }

  /** One step of the drain loop of getTasks keeps the drained tasks due
      before now, in order, and no later than anything left. */
  lemma DrainStep(before: seq<Item<Task>>, after: seq<Item<Task>>, item: Item<Task>, tasks: seq<Task>, now: Time)
    requires Keyed(before) && item in before && item.task.at < now
    requires multiset(after) == multiset(before) - multiset{item}
    requires forall k :: 0 <= k < |before| ==> item.priority <= before[k].priority
    requires forall k :: 0 <= k < |tasks| ==> tasks[k].at < now
    requires forall k, l :: 0 <= k < l < |tasks| ==> tasks[k].at <= tasks[l].at
    requires tasks != [] ==> forall x :: x in before ==> tasks[|tasks| - 1].at <= x.priority
    ensures Keyed(after)
    ensures Entry(item.task) == item
    ensures var tasks' := tasks + [item.task];
      && (forall k :: 0 <= k < |tasks'| ==> tasks'[k].at < now)
      && (forall k, l :: 0 <= k < l < |tasks'| ==> tasks'[k].at <= tasks'[l].at)
      && (forall x :: x in after ==> tasks'[|tasks'| - 1].at <= x.priority)
  {
    KeyedAfterRemove(before, after, item);
    forall x | x in after ensures item.priority <= x.priority {
      assert x in multiset(after);
      assert x in multiset(before);
      var k :| 0 <= k < |before| && before[k] == x;
    }
    if tasks != [] {
      assert tasks[|tasks| - 1].at <= item.priority;
    }
  }

  /** One step of the drain loop moves one entry from the queue to the batch. */
  lemma DrainCount(before: seq<Item<Task>>, after: seq<Item<Task>>, item: Item<Task>, tasks: seq<Task>)
    requires item in before && Entry(item.task) == item
    requires multiset(after) == multiset(before) - multiset{item}
    ensures multiset(Entries(tasks + [item.task])) + multiset(after) == multiset(Entries(tasks)) + multiset(before)
  {
    assert Entries(tasks + [item.task]) == Entries(tasks) + [item];
    assert multiset(before) == multiset(after) + multiset{item};
  }

  /** Multiset union regrouped in the shape the drain and transplant loops
      need; it exists only to keep those proofs cheap. */
  lemma UnionAssoc<X>(a: multiset<X>, b: multiset<X>, c: multiset<X>)
    ensures a + b + c == a + (b + c)
  {
  }

  lemma KeyedAfterAdd(before: seq<Item<Task>>, after: seq<Item<Task>>, y: Item<Task>)
    requires Keyed(before) && y == Entry(y.task)
    requires multiset(after) == multiset(before) + multiset{y}
    ensures Keyed(after)
  {
    forall x | x in after ensures x == Entry(x.task) {
      assert x in multiset(after);
    }
  }

  lemma KeyedAfterRemove(before: seq<Item<Task>>, after: seq<Item<Task>>, y: Item<Task>)
    requires Keyed(before)
    requires multiset(after) == multiset(before) - multiset{y}
    ensures Keyed(after)
  {
    forall x | x in after ensures x == Entry(x.task) {
      assert x in multiset(after);
      assert x in multiset(before);
    }
  }
}

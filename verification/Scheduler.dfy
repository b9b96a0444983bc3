/** The methods of internal/scheduler over a store, when no statement fails and no other goroutine intervenes. Every
    transaction they commit is recorded as an event, so what holds in every reachable state of Engine holds of them. */
module Scheduler {
  import opened Prelude
  import opened Model
  import opened Tables
  import opened Engine
  import opened FaultFree
  import opened Effects
  import opened DayKeys
  import opened Store
  import opened Tags
  import opened Text
  import opened Retry
  import opened SchedulerSteps
  import opened RecoveryLoop
  import opened TickCounts
  import opened Reporting

  /** What a manual operation answers. */
  datatype Reply = Done | TaskNotFound | RunNotFound | NoRetryBudget

  class Scheduler {
    const store: Store
    /** What the executor makes of a run. */
    const exec: (Task, Run) -> bool
    var clock: int
    /** Run identifiers at least this are unused. */
    var nextRunId: RunId
    ghost var trace: seq<Event>
    ghost var m: State

    /** A process starts with the tables that some earlier run of the engine left. */
    constructor (store: Store, exec: (Task, Run) -> bool, clock: int, nextRunId: RunId, ghost past: seq<Event>,
                 ghost end: State)
      requires store.Valid() && Reaches(past, end) && end.phase == Down
      requires end.db == store.Contents() && end.clock == clock && forall id | id in end.runLog :: id < nextRunId
      ensures Valid() && m == end && this.store == store && this.exec == exec
    {
      this.store, this.exec, this.clock, this.nextRunId := store, exec, clock, nextRunId;
      trace, m := past, end;
    }

    /** The record is a possible run, and agrees with the clock. */
    ghost predicate Traced()
      reads this
    {
      hide Reaches;
      Reaches(trace, m) && m.clock == clock && forall id | id in m.runLog :: id < nextRunId
    }

    ghost predicate Valid()
      reads this, store
    {
      hide Traced;
      Traced() && store.Valid() && m.db == store.Contents()
    }

    ghost method Record(e: Event)
      requires Reaches(trace, m) && Allowed(m, e)
      modifies this`trace, this`m
      ensures Reaches(trace, m)
      ensures trace == old(trace) + [e] && m == Apply(old(m), e)
    {
      hide Allowed, Apply, Possible, After;
      AfterAppend(Init, trace, e);
      trace, m := trace + [e], Apply(m, e);
    }

    /** Time passes between any two reads of the clock. */
    method Now() returns (ms: int)
      requires Traced()
      modifies this`clock, this`trace, this`m
      ensures Traced() && old(clock) <= clock && ms == clock
      ensures m == old(m).(clock := clock)
    {
      hide Reaches, Allowed, Apply;
      var passed: nat :| passed == passed;
      WaitStep(m, clock + passed);
      clock := clock + passed;
      Record(Wait(clock));
      ms := clock;
    }

    method NewId() returns (id: RunId)
      requires Traced()
      modifies this`nextRunId
      ensures Traced() && id == old(nextRunId) && nextRunId == id + 1
    {
      hide Reaches;
      id := nextRunId;
      nextRunId := nextRunId + 1;
    }

    lemma IdsBelowNext()
      requires Valid()
      ensures forall id | id in store.Contents().runs :: id < nextRunId
      ensures Keyed(store.Contents().runs) && m.clock == clock && forall id | id in m.runLog :: id < nextRunId
    {
      hide Reaches;
      UnusedIds(trace, m);
    }

    method ExecuteRun(task: Task, run: Run)
      requires Valid() && run.id in m.workers && m.workers[run.id].run == run && task.id == run.taskId
      modifies this, store
      ensures Valid() && nextRunId == old(nextRunId) && old(clock) <= clock
      ensures m == DoFinish(old(m).(clock := clock), run.id, exec(task, run), clock)
      ensures store.Contents() == FinishRun(old(store.Contents()), run, exec(task, run), clock)
    {
      hide Reaches, Allowed, Apply, DoFinish, FinishRun, DayOfMs, UpdateRunStatus, RecordRunOutcome, SetLastRun;
      var ok := exec(task, run);
      var finished := Now();
      var status := if ok then Succeeded else Failed;
      store.UpdateRunStatus(run.id, status, run.startedAt, finished);
      store.RecordRunOutcome(DayOfMs(run.scheduledAt), status);
      store.SetLastRun(task.id, run.scheduledAt);
      FinishRunIs(old(store.Contents()), run, ok, finished);
      FinishStep(m, run.id, ok, finished);
      FinishedState(m, run.id, ok, finished);
      Record(Finish(run.id, ok, finished));
    }

    /** create is the event by which the machine creates the run. */
    method RunOnce(task: Task, attempt: int, trigger: Trigger, scheduledAt: int, ghost create: Event)
      requires Valid()
      requires CreatesRun(m, create, Run(nextRunId, task.id, attempt, Running, scheduledAt, scheduledAt, 0, trigger))
      modifies this, store
      ensures Valid() && nextRunId == old(nextRunId) + 1 && old(clock) <= clock
      ensures var run := Run(old(nextRunId), task.id, attempt, Running, scheduledAt, scheduledAt, 0, trigger);
              && CreatesRun(old(m), create, run)
              && m == DoFinish(Apply(old(m), create).(clock := clock), run.id, exec(task, run), clock)
              && store.Contents() == FinishRun(CreateRun(old(store.Contents()), run), run, exec(task, run), clock)
    {
      hide Reaches, Allowed, Apply, DoFinish, FinishRun, CreateRun;
      var run := Run(nextRunId, task.id, attempt, Running, scheduledAt, scheduledAt, 0, trigger);
      UnusedIds(trace, m);
      nextRunId := nextRunId + 1;
      var ok := store.CreateRun(run);
      Record(create);
      ExecuteRun(task, run);
    }

    /** Executes a due task and advances its schedule. */
    method Dispatch(task: Task, nowMs: int, ghost queue: seq<Task>) returns (ghost note: Note)
      requires Valid() && BetweenDispatches(m, nowMs, [task] + queue) && nowMs <= clock
      modifies this, store
      ensures Valid() && BetweenDispatches(m, nowMs, queue) && nextRunId == old(nextRunId) + 1
      ensures note.id == old(nextRunId) && note.ok == exec(task, NewRun(note.id, task.id, BySchedule, nowMs))
      ensures old(clock) <= note.finishedAt <= note.computedAt <= note.updatedAt == clock
      ensures store.Contents() == Dispatched(old(store.Contents()), task, nowMs, note)
    {
      hide Reaches, Allowed, Apply, DoFinish, FinishRun, CreateRun, SetNextRun, NextDue, NextCron, CreatesRun;
      ghost var run := NewRun(nextRunId, task.id, BySchedule, nowMs);
      DispatchCreateStep(m, nowMs, [task] + queue, nextRunId);
      assert ([task] + queue)[1..] == queue;
      ghost var created := Apply(m, DispatchCreate(nextRunId));
      RunOnce(task, 1, BySchedule, nowMs, DispatchCreate(nextRunId));
      DispatchFinish(created.(clock := clock), nowMs, queue, task, run, exec(task, run), clock);
      ghost var finishedAt := clock;
      var next := 0;
      var at := clock;
      if task.specType == SpecCron {
        at := Now();
        var n := ComputeNextCron(task, at);
        if n.Some? {
          next := n.value;
        }
      }
      NextDueIs(task, at);
      var now := Now();
      store.SetNextRun(task.id, next, nowMs, now);
      DispatchAdvanceStep(m, nowMs, queue, task, run, at);
      Record(DispatchAdvance(at));
      note := Note(run.id, exec(task, run), finishedAt, at, now);
    }

    /** The loop of Tick. */
    method DispatchEach(rows: seq<Task>, nowMs: int) returns (ghost notes: seq<Note>)
      requires Valid() && BetweenDispatches(m, nowMs, rows) && nowMs <= clock
      modifies this, store
      ensures Valid() && BetweenDispatches(m, nowMs, []) && old(clock) <= clock
      ensures |notes| == |rows| && store.Contents() == DispatchAll(old(store.Contents()), rows, nowMs, notes)
      ensures forall i | 0 <= i < |notes| ::
                && notes[i].id == old(nextRunId) + i && InOrder(notes[i], nowMs, clock)
                && notes[i].ok == exec(rows[i], NewRun(notes[i].id, rows[i].id, BySchedule, nowMs))
    {
      hide Reaches, Traced, DispatchAll, Dispatched, BetweenDispatches, NewRun;
      ghost var before := store.Contents();
      notes := [];
      DispatchNone(before, nowMs);
      for i := 0 to |rows|
        invariant Valid() && BetweenDispatches(m, nowMs, rows[i..]) && nowMs <= clock && old(clock) <= clock
        invariant nextRunId == old(nextRunId) + i && |notes| == i
        invariant forall j | 0 <= j < i ::
                    && notes[j].id == old(nextRunId) + j && InOrder(notes[j], nowMs, clock)
                    && notes[j].ok == exec(rows[j], NewRun(notes[j].id, rows[j].id, BySchedule, nowMs))
        invariant store.Contents() == DispatchAll(before, rows[..i], nowMs, notes)
      {
        assert rows[i..] == [rows[i]] + rows[i + 1..];
        ghost var note := Dispatch(rows[i], nowMs, rows[i + 1..]);
        DispatchOne(before, rows[..i], nowMs, notes, rows[i], note);
        assert rows[..i + 1] == rows[..i] + [rows[i]];
        notes := notes + [note];
      }
      assert rows[..|rows|] == rows && rows[|rows|..] == [];
    }

    /** Dispatches every due task exactly once, in the order of their next run times. */
    method Tick() returns (ghost now: int, ghost due: seq<Task>, ghost notes: seq<Note>)
      requires Valid() && Idling(m)
      modifies this, store
      ensures Valid() && Idling(m) && old(clock) <= now <= clock
      ensures |notes| == |due| && store.Contents() == DispatchAll(old(store.Contents()), due, now, notes)
      ensures TickResult(old(store.Contents()), now, store.Contents())
      ensures IsTick(old(store.Contents()), TickRun(now, due, notes))
      ensures forall t :: t in due <==> t.id in old(store.tasks) && old(store.tasks)[t.id] == t
                                        && t.enabled && !t.paused && 0 < t.nextRunAt <= now
      ensures forall i, j | 0 <= i < j < |due| :: due[i].id != due[j].id && due[i].nextRunAt <= due[j].nextRunAt
      ensures forall i | 0 <= i < |notes| ::
                && notes[i].id == old(nextRunId) + i && notes[i].id !in old(store.runs)
                && now <= notes[i].finishedAt <= notes[i].computedAt <= notes[i].updatedAt <= clock
                && notes[i].ok == exec(due[i], Run(notes[i].id, due[i].id, 1, Running, now, now, 0, BySchedule))
      ensures RunsTicked(old(store.Contents()), now, due, notes, store.Contents())
      ensures TasksTicked(old(store.Contents()), now, due, notes, store.Contents())
      ensures forall day :: CountersTicked(old(store.Contents()), now, notes, store.Contents(), day)
    {
      hide Reaches, TickResult, DispatchAll, Idling, FreshNotes, RunsTicked, TasksTicked, CountersTicked, IsDueList,
          IsTick;
      ghost var db := store.Contents();
      now, due, notes := TickRows();
      DueListHolds(db, now, due);
      IsTickIff(db, TickRun(now, due, notes));
      TickColumns(db, now, due, notes);
      TickKeepsPromise(db, now, due, notes);
    }

    /** The same, by the functions on tables. */
    method TickRows() returns (ghost now: int, ghost due: seq<Task>, ghost notes: seq<Note>)
      requires Valid() && Idling(m)
      modifies this, store
      ensures Valid() && Idling(m) && old(clock) <= now <= clock
      ensures IsDueList(old(store.Contents()), now, due) && |notes| == |due| && FreshNotes(old(store.Contents()), notes)
      ensures forall i | 0 <= i < |notes| ::
                && notes[i].id == old(nextRunId) + i && InOrder(notes[i], now, clock)
                && notes[i].ok == exec(due[i], NewRun(notes[i].id, due[i].id, BySchedule, now))
      ensures store.Contents() == DispatchAll(old(store.Contents()), due, now, notes)
      ensures 0 <= now && forall i | 0 <= i < |notes| :: notes[i].id !in old(store.runs)
    {
      hide Reaches, Allowed, Apply, IsDueList, DispatchAll, BetweenDispatches, Idling, NewRun, FreshNotes;
      UnusedIds(trace, m);
      var nowMs := Now();
      var rows := store.DueTasks(nowMs);
      ClockIsPositive(trace, m);
      IdlesOn(old(m), clock);
      TickBeginStep(m, nowMs, rows);
      Record(TickBegin(nowMs, rows));
      now, due := nowMs, rows;
      notes := DispatchEach(rows, nowMs);
      TickEndStep(m, nowMs);
      Record(TickEnd);
      NotesAreFresh(old(store.Contents()), notes, old(nextRunId));
    }

    /** The transaction of Recover: marks the orphans and creates their retries. */
    method MarkOrphans(orphans: seq<Run>) returns (toExec: seq<PendingRetry>, ghost p: Progress)
      requires Valid() && IsOrphanList(store.Contents(), orphans)
      modifies this, store
      ensures Traced() && store.Valid() && m == old(m).(clock := clock)
      ensures Midway(old(store.Contents()), orphans, |orphans|, p, store.Contents(), toExec,
                     Span(old(nextRunId), nextRunId, old(clock), clock))
    {
      hide Reaches, Traced, Midway, UpdateRunStatus, CreateRun, IsOrphanList;
      ghost var before, firstId, start := store.Contents(), nextRunId, clock;
      toExec, p := [], Progress(map[], map[], []);
      IdsBelowNext();
      RecoveryStarts(before, orphans, Span(firstId, nextRunId, start, clock));
      for i := 0 to |orphans|
        invariant Traced() && store.Valid() && m == old(m).(clock := clock) && start <= clock
        invariant Midway(before, orphans, i, p, store.Contents(), toExec, Span(firstId, nextRunId, start, clock))
      {
        var o := orphans[i];
        ghost var db, span := store.Contents(), Span(firstId, nextRunId, start, clock);
        var finished := Now();
        RecoveryGoesOn(before, orphans, i, p, db, toExec, span, finished);
        span := span.(end := finished);
        OrphanCase(before, orphans, i, p, db, toExec, span);
        UpdateKeepsKeys(db, o, finished);
        store.UpdateRunStatus(o.id, Orphaned, o.startedAt, finished);
        var task := store.GetTask(o.taskId);
        if task.Some? && CanRetry(o.attempt, task.value.maxRetries) {
          OrphanRetried(before, orphans, i, p, db, toExec, span, finished, task.value);
          var id := NewId();
          var r, ok := store.RetryRun(o, id, finished);
          toExec := toExec + [PendingRetry(task.value, r)];
          p := Progress(p.retries[id := o.id], p.marked[o.id := finished], p.runs + [r]);
        } else {
          OrphanMarked(before, orphans, i, p, db, toExec, span, finished);
          p := p.(marked := p.marked[o.id := finished]);
        }
      }
    }

    /** The second loop of Recover: the retries are executed outside its transaction. */
    method ExecuteRetries(toExec: seq<PendingRetry>, ghost runs: seq<Run>, ghost tasks: map<TaskId, Task>)
      returns (ghost endings: seq<Ending>)
      requires Valid() && Retrying(m, runs, 0) && Executes(toExec, runs, tasks) && DistinctRuns(runs)
      modifies this, store
      ensures Valid() && Retrying(m, runs, |runs|) && nextRunId == old(nextRunId) && old(clock) <= clock
      ensures |endings| == |runs| && store.Contents() == FinishAll(old(store.Contents()), runs, endings)
      ensures forall i | 0 <= i < |runs| ::
                && runs[i].taskId in tasks && endings[i].ok == exec(tasks[runs[i].taskId], runs[i])
                && old(clock) <= endings[i].at <= clock
    {
      hide Reaches, Traced, FinishRun, FinishAll, DoFinish, DistinctRuns, Retrying;
      ghost var before := store.Contents();
      endings := [];
      FinishNone(before);
      for i := 0 to |toExec|
        invariant Valid() && Retrying(m, runs, i) && nextRunId == old(nextRunId) && old(clock) <= clock
        invariant |endings| == i && store.Contents() == FinishAll(before, runs[..i], endings)
        invariant forall j | 0 <= j < i ::
                    && runs[j].taskId in tasks && endings[j].ok == exec(tasks[runs[j].taskId], runs[j])
                    && old(clock) <= endings[j].at <= clock
      {
        var task, run := toExec[i].task, toExec[i].run;
        ghost var s := m;
        NextRetry(s, runs, i);
        ExecuteRun(task, run);
        RetriesGoOn(s, runs, i, clock);
        RetryFinish(s.(clock := clock), runs, i, exec(task, run), clock);
        FinishOne(before, runs[..i], endings, run, Ending(exec(task, run), clock));
        assert runs[..i + 1] == runs[..i] + [runs[i]];
        endings := endings + [Ending(exec(task, run), clock)];
      }
      assert runs[..|runs|] == runs;
    }

    /** The first part of Recover, up to its commit. */
    method CommitRecovery() returns (n: nat, toExec: seq<PendingRetry>, ghost p: Progress)
      requires Valid() && m.phase == Down
      modifies this, store
      ensures Valid() && Retrying(m, p.runs, 0) && old(clock) <= clock && n == |OrphanIds(old(store.Contents()))|
      ensures RetriesAll(old(store.Contents()), p.retries) && p.marked.Keys == OrphanIds(old(store.Contents()))
      ensures store.Contents() == RecoverRuns(old(store.Contents()), p.retries, p.marked)
      ensures ListsRetries(store.Contents(), p.retries, p.runs) && Executes(toExec, p.runs, old(store.tasks))
      ensures forall id | id in p.marked :: old(clock) <= p.marked[id] <= clock
    {
      hide Reaches, Allowed, Apply, RecoverRuns, RetriesAll, ListsRetries, IsOrphanList, OrphanIds, Midway, Executes,
          Retrying;
      DownIsEmpty(trace, m);
      ClockIsPositive(trace, m);
      IdsBelowNext();
      ghost var before, firstId, start := store.Contents(), nextRunId, clock;
      var orphans := store.OrphanedRuns();
      toExec, p := MarkOrphans(orphans);
      RecoveryEnds(before, orphans, p, store.Contents(), toExec, Span(firstId, nextRunId, start, clock));
      RecoverStep(m, p.retries, p.marked, p.runs);
      Record(Event.Recover(p.retries, p.marked));
      n := |orphans|;
    }

    /** Heals what a crash left and returns the number of runs that were running; see RecoveryResult. */
    method Recover() returns (n: nat, ghost retries: map<RunId, RunId>)
      requires Valid() && m.phase == Down
      modifies this, store
      ensures Valid() && Idling(m) && old(clock) <= clock
      ensures n == |OrphanIds(old(store.Contents()))|
      ensures RecoveryResult(old(store.Contents()), retries, store.Contents())
      ensures n == 0 ==> store.Contents() == old(store.Contents())
      ensures n == |set id | id in old(store.runs) && old(store.runs)[id].status == Running|
      ensures RetriesExactly(old(store.Contents()), retries)
      ensures OrphansMarked(old(store.Contents()), retries, store.Contents(), old(clock), clock)
      ensures RetriesExecuted(old(store.Contents()), retries, store.Contents(), exec, clock)
      ensures LastRunsMoved(old(store.Contents()), retries, store.Contents())
      ensures forall day :: RetriesCounted(old(store.Contents()), retries, store.Contents(), day)
    {
      hide Reaches, Allowed, Apply, RecoverRuns, FinishAll, RecoveryResult, RetriesAll, ListsRetries, OrphanIds,
          Executes;
      hide Retrying, Idling, RetriesExactly, OrphansMarked, RetriesExecuted, LastRunsMoved, RetriesCounted;
      ghost var before, start := store.Contents(), clock;
      var orphans, toExec, p := CommitRecovery();
      ghost var committed := clock;
      ListIsDistinct(store.Contents(), p.retries, p.runs);
      ghost var endings := ExecuteRetries(toExec, p.runs, before.tasks);
      RecoverDoneStep(m, p.runs);
      Record(RecoverDone);
      RecoveryKeepsPromise(before, p.retries, p.marked, p.runs, endings);
      if |OrphanIds(before)| == 0 {
        NothingToRecover(before, p.retries, p.marked, p.runs, endings);
      }
      OrphanIdsAre(before);
      RecoveryColumns(before, p.retries, p.marked, p.runs, endings, start, committed, clock, exec);
      n, retries := orphans, p.retries;
    }

    /** Runs a task at once, whatever its schedule. */
    method TriggerNow(taskId: TaskId) returns (reply: Reply, ghost run: Run)
      requires Valid() && Idling(m)
      modifies this, store
      ensures Valid() && Idling(m) && reply == if taskId in old(store.tasks) then Done else TaskNotFound
      ensures reply != Done ==> store.Contents() == old(store.Contents())
      ensures reply == Done ==>
                && run == Run(old(nextRunId), taskId, 1, Running, run.scheduledAt, run.scheduledAt, 0, ByHand)
                && old(clock) <= run.scheduledAt <= clock && run.id !in old(store.runs)
                && var ok := exec(old(store.tasks)[taskId], run);
                   && store.Contents() == FinishRun(CreateRun(old(store.Contents()), run), run, ok, clock)
                   && store.runs == old(store.runs)[run.id := run.(status := if ok then Succeeded else Failed,
                                                                   finishedAt := clock)]
                   && store.tasks == old(store.tasks)[taskId := old(store.tasks)[taskId].(lastRunAt := run.scheduledAt)]
    {
      hide Reaches, Allowed, Apply, FinishRun, CreateRun, DoFinish, Idling, Asking, ExecutingManually, CreatesRun;
      var task := store.GetTask(taskId);
      run := NewRun(nextRunId, taskId, ByHand, clock);
      if task.None? {
        return TaskNotFound, run;
      }
      ClockIsPositive(trace, m);
      IdsBelowNext();
      ReadTriggerStep(m, taskId);
      ghost var request := TriggerRequest(task.value);
      Record(ReadTrigger(taskId));
      ghost var s := m;
      var at := Now();
      AskingGoesOn(s, request, at);
      WriteTriggerStep(m, request, nextRunId, at);
      ghost var s1 := Apply(m, WriteTrigger(request, nextRunId, at));
      run := NewRun(nextRunId, taskId, ByHand, at);
      RunOnce(task.value, 1, ByHand, at, WriteTrigger(request, nextRunId, at));
      ManualFinish(s1, run, exec(task.value, run), clock, clock);
      CreateAndFinish(old(store.Contents()), run, exec(task.value, run), clock);
      reply := Done;
    }

    /** The part of RetryRunByID after its checks. */
    method Retry(task: Task, run: Run) returns (ghost retry: Run)
      requires Valid() && Idling(m)
      requires run.id in store.runs && store.runs[run.id] == run && run.taskId in store.tasks
                   && store.tasks[run.taskId] == task
      requires CanRetry(run.attempt, task.maxRetries)
      modifies this, store
      ensures Valid() && Idling(m)
      ensures retry == RetryOf(run, old(nextRunId), retry.scheduledAt) && old(clock) <= retry.scheduledAt <= clock
      ensures store.Contents() == FinishRun(CreateRun(old(store.Contents()), retry), retry, exec(task, retry), clock)
      ensures retry.id !in old(store.runs)
    {
      hide Reaches, Allowed, Apply, FinishRun, CreateRun, DoFinish, Idling, Asking, ExecutingManually;
      ClockIsPositive(trace, m);
      IdsBelowNext();
      ReadRetryStep(m, run.id);
      ghost var request := RetryRequest(run, task);
      Record(ReadRetry(run.id));
      ghost var s := m;
      var at := Now();
      AskingGoesOn(s, request, at);
      WriteRetryStep(m, request, nextRunId, at);
      ghost var s1 := Apply(m, WriteRetry(request, nextRunId, at));
      var id := NewId();
      var r, ok := store.RetryRun(run, id, at);
      Record(WriteRetry(request, id, at));
      ExecuteRun(task, r);
      ManualFinish(s1, r, exec(task, r), clock, clock);
      retry := r;
    }

    /** Executes a run again as one more attempt, if the budget of its task allows; the run need not have failed. */
    method RetryRunByID(runId: RunId) returns (reply: Reply, ghost retry: Run)
      requires Valid() && Idling(m)
      modifies this, store
      ensures Valid() && Idling(m)
      ensures reply == RunNotFound <==> runId !in old(store.runs)
      ensures reply == TaskNotFound <==>
                runId in old(store.runs) && old(store.runs)[runId].taskId !in old(store.tasks)
      ensures reply == NoRetryBudget <==>
                && runId in old(store.runs) && old(store.runs)[runId].taskId in old(store.tasks)
                && old(store.runs)[runId].attempt > old(store.tasks)[old(store.runs)[runId].taskId].maxRetries
      ensures reply == Done <==>
                && runId in old(store.runs) && old(store.runs)[runId].taskId in old(store.tasks)
                && old(store.runs)[runId].attempt <= old(store.tasks)[old(store.runs)[runId].taskId].maxRetries
      ensures reply != Done ==> store.Contents() == old(store.Contents())
      ensures reply == Done ==>
                var orig := old(store.runs)[runId];
                var task := old(store.tasks)[orig.taskId];
                && retry == Run(old(nextRunId), orig.taskId, orig.attempt + 1, Pending, retry.scheduledAt, 0, 0,
                                ByRetry)
                && old(clock) <= retry.scheduledAt <= clock && retry.id !in old(store.runs)
                && var ok := exec(task, retry);
                   && store.Contents() == FinishRun(CreateRun(old(store.Contents()), retry), retry, ok, clock)
                   && store.runs == old(store.runs)[retry.id := retry.(status := if ok then Succeeded else Failed,
                                                                       finishedAt := clock)]
                   && store.tasks == old(store.tasks)[task.id := task.(lastRunAt := retry.scheduledAt)]
    {
      hide Reaches, Traced, FinishRun, CreateRun, Idling;
      var run := store.GetRun(runId);
      retry := NewRun(nextRunId, 0, ByRetry, clock);
      if run.None? {
        return RunNotFound, retry;
      }
      var task := store.GetTask(run.value.taskId);
      if task.None? {
        return TaskNotFound, retry;
      }
      if !CanRetry(run.value.attempt, task.value.maxRetries) {
        return NoRetryBudget, retry;
      }
      retry := Retry(task.value, run.value);
      CreateAndFinish(old(store.Contents()), retry, exec(task.value, retry), clock);
      reply := Done;
    }

    /** Validates a task, computes its first due time, cleans its tags and persists it. */
    method ScheduleNew(spec: Task, tags: seq<string>) returns (reply: Creation)
      requires Valid() && Idling(m) && spec.id !in m.taskLog
      modifies this, store
      ensures Valid() && Idling(m)
      ensures reply.Rejected? <==> !ValidTask(spec) || (spec.specType == SpecCron && NextCron(spec, clock).None?)
      ensures reply.Panicked? <==> !reply.Rejected? && exists t :: t in tags && PeelsToOneSpace(t)
      ensures !reply.Created? ==> store.Contents() == old(store.Contents())
      ensures reply.Created? ==>
                && reply.task == spec.(tags := Join(CleanTags(tags), ','), createdAt := clock, updatedAt := clock,
                                       nextRunAt := reply.task.nextRunAt)
                && (spec.specType == SpecCron ==> NextCron(spec, clock) == Some(reply.task.nextRunAt))
                && (spec.specType == SpecDelayed ==> reply.task.nextRunAt == clock + 1000 * spec.delaySeconds)
                && (spec.specType == SpecOnce ==>
                      reply.task.nextRunAt == if spec.nextRunAt == 0 then clock else spec.nextRunAt)
                && store.Contents() == old(store.Contents()).(tasks := old(store.tasks)[spec.id := reply.task])
    {
      hide Reaches, Allowed, Apply, ValidTask, NextCron, Idling, FirstDue, CleanTags, Join, PeelsToOneSpace;
      ClockIsPositive(trace, m);
      UnusedTask(trace, m);
      var valid := Validate(spec);
      if !valid {
        return Rejected;
      }
      ghost var s := m;
      var nowMs := Now();
      IdlesOn(s, nowMs);
      reply := NewTask(spec, tags, nowMs);
      if reply.Created? {
        ScheduleNewStep(m, reply.task);
        var ok := store.CreateTask(reply.task);
        Record(Event.ScheduleNew(reply.task));
      }
    }

    /** Counts the tasks; a task is due in the report exactly when a Tick at that time would dispatch it. */
    method Report() returns (report: TaskReport, durable: (TaskTotals, RunTotals), now: int)
      requires Valid() && Idling(m)
      modifies this`clock, this`trace, this`m
      ensures Valid() && Idling(m) && old(clock) <= now == clock
      ensures Reports(store.Contents(), now, report)
      ensures durable == (OverallTasks(store.Contents()), OverallRuns(store.Contents()))
    {
      hide Reaches, Traced, Idling, Reports, Tallied, OverallTasks, OverallRuns, IsTaskList, TagClause;
      var tasks, _ := store.ListTasks(ALL_TASKS);
      var totals, runs := store.OverallStats();
      ghost var s := m;
      now := Now();
      IdlesOn(s, now);
      ListedTasksDiffer(store.Contents(), tasks);
      report := Tally(tasks, now);
      TallyAll(store.Contents(), tasks, now, report);
      durable := (totals, runs);
    }
  }
}

/** What the single events of Engine do to a process that has one thing under way at a time: the steps of the methods of
    the scheduler. */
module SchedulerSteps {
  import opened Prelude
  import opened Model
  import opened Tables
  import opened Engine
  import opened EngineInvariants
  import opened EngineSchedule
  import opened FaultFree
  import opened DayKeys
  import opened Retry
  import opened Tags
  import opened Text
  import opened CronParse
  import opened CronNext

  // ---------- single events ----------

  lemma WaitStep(s: State, until: int)
    requires s.clock <= until
    ensures Allowed(s, Wait(until)) && Apply(s, Wait(until)) == s.(clock := until)
  {
  }

  lemma FinishStep(s: State, id: RunId, ok: bool, at: int)
    requires id in s.workers && at <= s.clock
    ensures Allowed(s, Finish(id, ok, at)) && Apply(s, Finish(id, ok, at)) == DoFinish(s, id, ok, at)
  {
    hide DoFinish;
  }

  lemma FinishRunIs(db: Db, run: Run, ok: bool, at: int)
    ensures FinishRun(db, run, ok, at)
            == SetLastRun(RecordRunOutcome(UpdateRunStatus(db, run.id, Outcome(ok), run.startedAt, at),
                                           DayOfMs(run.scheduledAt), Outcome(ok)), run.taskId, run.scheduledAt)
  {
    hide UpdateRunStatus, RecordRunOutcome, SetLastRun, DayOfMs;
  }

  lemma FinishedState(s: State, id: RunId, ok: bool, at: int)
    requires id in s.workers
    ensures var s' := DoFinish(s, id, ok, at);
            && s'.db == FinishRun(s.db, s.workers[id].run, ok, at) && s'.clock == s.clock && s'.runLog == s.runLog
  {
    hide FinishRun;
  }

  /** The event creates the run, as a running row with a worker. */
  ghost predicate CreatesRun(s: State, e: Event, run: Run) {
    Allowed(s, e)
    && var s' := Apply(s, e);
       && s'.db == CreateRun(s.db, run) && s'.clock == s.clock && s'.runLog.Keys == s.runLog.Keys + {run.id}
       && run.id in s'.workers && s'.workers[run.id].run == run
  }

  lemma UnusedIds(es: seq<Event>, s: State)
    requires Reaches(es, s)
    ensures forall id | id in s.db.runs :: id in s.runLog
  {
    hide Possible, After, Basic;
    InitIsBasic();
    AlwaysBasic(Init, es);
    RowsAreLogged(s);
  }

  /** A Tick between two dispatches. */
  ghost predicate BetweenDispatches(s: State, now: int, queue: seq<Task>) {
    s.phase == Up && s.ticker == Tick(now, queue, None) && s.workers == map[] && s.requests == multiset{}
  }

  /** A Tick whose only worker executes the run, or has done so. */
  ghost predicate Dispatching(s: State, now: int, queue: seq<Task>, task: Task, run: Run, executed: bool) {
    && s.phase == Up && s.requests == multiset{} && s.ticker == Tick(now, queue, Some(Dispatch(task, run.id, executed)))
    && s.workers == if executed then map[] else map[run.id := Worker(run, Ticking)]
  }

  ghost predicate Idling(s: State) {
    s.phase == Up && s.ticker == Idle && s.workers == map[] && s.requests == multiset{}
  }

  lemma IdlesOn(s: State, until: int)
    requires Idling(s)
    ensures Idling(s.(clock := until))
  {
  }

  lemma TickBeginStep(s: State, now: int, due: seq<Task>)
    requires Idling(s) && 0 <= now <= s.clock && IsDueList(s.db, now, due)
    ensures Allowed(s, TickBegin(now, due))
    ensures var s' := Apply(s, TickBegin(now, due));
            BetweenDispatches(s', now, due) && s'.db == s.db && s'.clock == s.clock && s'.runLog == s.runLog
  {
    hide IsDueList;
  }

  lemma DispatchCreateStep(s: State, now: int, queue: seq<Task>, id: RunId)
    requires BetweenDispatches(s, now, queue) && queue != [] && id !in s.runLog
    ensures Allowed(s, DispatchCreate(id))
    ensures var run := NewRun(id, queue[0].id, BySchedule, now);
            && CreatesRun(s, DispatchCreate(id), run)
            && Dispatching(Apply(s, DispatchCreate(id)), now, queue[1..], queue[0], run, false)
  {
    hide CreateRun;
  }

  lemma DispatchFinish(s: State, now: int, queue: seq<Task>, task: Task, run: Run, ok: bool, at: int)
    requires Dispatching(s, now, queue, task, run, false)
    ensures Dispatching(DoFinish(s, run.id, ok, at), now, queue, task, run, true)
  {
    hide FinishRun;
  }

  lemma DispatchAdvanceStep(s: State, now: int, queue: seq<Task>, task: Task, run: Run, at: int)
    requires Dispatching(s, now, queue, task, run, true) && now <= at <= s.clock
    ensures Allowed(s, DispatchAdvance(at))
    ensures var s' := Apply(s, DispatchAdvance(at));
            && BetweenDispatches(s', now, queue) && s'.clock == s.clock && s'.runLog == s.runLog
            && s'.db == SetNextRun(s.db, task.id, NextDue(task, at), now, s.clock)
  {
    hide NextDue, SetNextRun;
  }

  lemma NextDueIs(task: Task, at: int)
    ensures NextDue(task, at) == if task.specType == SpecCron
                && NextCron(task, at).Some? then NextCron(task, at).value else 0
  {
  }

  lemma TickEndStep(s: State, now: int)
    requires BetweenDispatches(s, now, [])
    ensures Allowed(s, TickEnd)
    ensures var s' := Apply(s, TickEnd); Idling(s') && s'.db == s.db && s'.clock == s.clock && s'.runLog == s.runLog
  {
  }

  lemma ClockIsPositive(es: seq<Event>, s: State)
    requires Reaches(es, s)
    ensures 0 <= s.clock
  {
    hide Possible, After, Basic, AccountsOk, QueueOk;
    InitIsBasic();
    InitIsScheduled();
    AlwaysSchedule(Init, es);
  }

  lemma NotesAreFresh(db: Db, notes: seq<Note>, first: RunId)
    requires forall id | id in db.runs :: id < first
    requires forall i | 0 <= i < |notes| :: notes[i].id == first + i
    ensures FreshNotes(db, notes)
  {
  }

  lemma DispatchNone(db: Db, now: int)
    ensures DispatchAll(db, [], now, []) == db
  {
  }

  lemma DispatchOne(db: Db, due: seq<Task>, now: int, notes: seq<Note>, task: Task, note: Note)
    requires |notes| == |due|
    ensures DispatchAll(db, due + [task], now, notes + [note])
                == Dispatched(DispatchAll(db, due, now, notes), task, now, note)
  {
    hide Dispatched;
    assert (due + [task])[..|due|] == due && (notes + [note])[..|notes|] == notes;
  }

  // ---------- the events of a manual operation ----------

  /** The process is up and one manual operation has read its rows. */
  ghost predicate Asking(s: State, request: Request) {
    s.phase == Up && s.ticker == Idle && s.workers == map[] && s.requests == multiset{request}
  }

  /** The process is up and executes one manual run. */
  ghost predicate ExecutingManually(s: State, run: Run) {
    s.phase == Up && s.ticker == Idle && s.workers == map[run.id := Worker(run, Manual)] && s.requests == multiset{}
  }

  lemma ReadTriggerStep(s: State, id: TaskId)
    requires Idling(s) && id in s.db.tasks
    ensures Allowed(s, ReadTrigger(id))
    ensures var s' := Apply(s, ReadTrigger(id));
            Asking(s', TriggerRequest(s.db.tasks[id])) && s'.db == s.db && s'.clock == s.clock && s'.runLog == s.runLog
  {
  }

  lemma ReadRetryStep(s: State, id: RunId)
    requires Idling(s) && id in s.db.runs && s.db.runs[id].taskId in s.db.tasks
    requires CanRetry(s.db.runs[id].attempt, s.db.tasks[s.db.runs[id].taskId].maxRetries)
    ensures Allowed(s, ReadRetry(id))
    ensures var s' := Apply(s, ReadRetry(id));
            && Asking(s', RetryRequest(s.db.runs[id], s.db.tasks[s.db.runs[id].taskId]))
            && s'.db == s.db && s'.clock == s.clock && s'.runLog == s.runLog
  {
  }

  lemma AskingGoesOn(s: State, request: Request, until: int)
    requires Asking(s, request)
    ensures Asking(s.(clock := until), request)
  {
  }

  lemma WriteTriggerStep(s: State, request: Request, id: RunId, at: int)
    requires Asking(s, request) && request.TriggerRequest? && id !in s.runLog && 0 <= at <= s.clock
    ensures Allowed(s, WriteTrigger(request, id, at))
    ensures var run := NewRun(id, request.task.id, ByHand, at);
            && CreatesRun(s, WriteTrigger(request, id, at), run)
            && ExecutingManually(Apply(s, WriteTrigger(request, id, at)), run)
  {
    hide CreateRun;
  }

  lemma WriteRetryStep(s: State, request: Request, id: RunId, at: int)
    requires Asking(s, request) && request.RetryRequest? && id !in s.runLog && 0 <= at <= s.clock
    ensures Allowed(s, WriteRetry(request, id, at))
    ensures var run := RetryOf(request.run, id, at);
            && CreatesRun(s, WriteRetry(request, id, at), run)
            && ExecutingManually(Apply(s, WriteRetry(request, id, at)), run)
  {
    hide CreateRun;
  }

  lemma ManualFinish(s: State, run: Run, ok: bool, at: int, until: int)
    requires ExecutingManually(s, run)
    ensures Idling(DoFinish(s.(clock := until), run.id, ok, at))
  {
    hide FinishRun;
  }

  // ---------- the events of a recovery ----------

  /** The process is down: nothing is held in memory. */
  lemma DownIsEmpty(es: seq<Event>, s: State)
    requires Reaches(es, s) && s.phase == Down
    ensures s.ticker == Idle && s.requests == multiset{}
  {
    hide Possible, After, Logged;
    InitIsBasic();
    AlwaysBasic(Init, es);
  }

  /** Recovery still has to execute the runs from i on. */
  ghost predicate Retrying(s: State, runs: seq<Run>, i: nat) {
    && s.phase == Recovering && s.ticker == Idle && s.requests == multiset{} && i <= |runs|
    && (forall id | id in s.workers :: exists k :: i <= k < |runs| && runs[k].id == id)
    && (forall k | i <= k < |runs| :: runs[k].id in s.workers && s.workers[runs[k].id].run == runs[k])
  }

  lemma RecoverStep(s: State, retries: map<RunId, RunId>, marked: map<RunId, int>, runs: seq<Run>)
    requires s.phase == Down && s.ticker == Idle && s.requests == multiset{}
    requires RetriesAll(s.db, retries) && retries.Keys !! s.runLog.Keys && marked.Keys == OrphanIds(s.db)
    requires forall id | id in marked :: 0 <= marked[id] <= s.clock
    requires ListsRetries(RecoverRuns(s.db, retries, marked), retries, runs)
    ensures Allowed(s, Recover(retries, marked))
    ensures var s' := Apply(s, Recover(retries, marked));
            && Retrying(s', runs, 0) && s'.clock == s.clock && s'.runLog.Keys == s.runLog.Keys + retries.Keys
            && s'.db == RecoverRuns(s.db, retries, marked) && s'.taskLog == s.taskLog
  {
    hide RetriesAll, RecoverRuns, ListsRetries, DoRecover, Retrying;
    RecoveredState(s, retries, marked, runs);
  }

  lemma RecoveredState(s: State, retries: map<RunId, RunId>, marked: map<RunId, int>, runs: seq<Run>)
    requires s.phase == Down && s.ticker == Idle && s.requests == multiset{}
    requires RetriesAll(s.db, retries) && marked.Keys == OrphanIds(s.db)
    requires ListsRetries(RecoverRuns(s.db, retries, marked), retries, runs)
    ensures var s' := DoRecover(s, retries, marked);
            && Retrying(s', runs, 0) && s'.clock == s.clock && s'.runLog.Keys == s.runLog.Keys + retries.Keys
            && s'.db == RecoverRuns(s.db, retries, marked) && s'.taskLog == s.taskLog
  {
    hide RetriesAll, RecoverRuns;
  }

  lemma RetriesOfList(db: Db, retries: map<RunId, RunId>, runs: seq<Run>)
    requires ListsRetries(db, retries, runs)
    ensures runs != [] ==> retries != map[]
  {
    if runs != [] {
      assert runs[0].id in retries;
    }
  }

  lemma NothingToRecover(db: Db, retries: map<RunId, RunId>, marked: map<RunId, int>, runs: seq<Run>,
                         endings: seq<Ending>)
    requires RetriesAll(db, retries) && marked.Keys == OrphanIds(db) && |endings| == |runs|
    requires ListsRetries(RecoverRuns(db, retries, marked), retries, runs) && |OrphanIds(db)| == 0
    ensures FinishAll(RecoverRuns(db, retries, marked), runs, endings) == db
  {
    NoOrphansNoRetries(db, retries);
    RetriesOfList(RecoverRuns(db, retries, marked), retries, runs);
    assert RecoverRuns(db, retries, marked).runs == db.runs;
  }

  lemma NextRetry(s: State, runs: seq<Run>, i: nat)
    requires Retrying(s, runs, i) && i < |runs|
    ensures runs[i].id in s.workers && s.workers[runs[i].id].run == runs[i]
  {
  }

  lemma RetriesGoOn(s: State, runs: seq<Run>, i: nat, until: int)
    requires Retrying(s, runs, i)
    ensures Retrying(s.(clock := until), runs, i)
  {
  }

  lemma RetryFinish(s: State, runs: seq<Run>, i: nat, ok: bool, at: int)
    requires Retrying(s, runs, i) && i < |runs| && DistinctRuns(runs)
    ensures Retrying(DoFinish(s, runs[i].id, ok, at), runs, i + 1)
  {
    hide FinishRun;
  }

  lemma RecoverDoneStep(s: State, runs: seq<Run>)
    requires Retrying(s, runs, |runs|)
    ensures Allowed(s, RecoverDone)
    ensures var s' := Apply(s, RecoverDone);
            && Idling(s') && s'.db == s.db && s'.clock == s.clock && s'.runLog == s.runLog && s'.taskLog == s.taskLog
  {
    assert s.workers.Keys == {};
  }

  // ---------- the creation of a task ----------

  lemma UnusedTask(es: seq<Event>, s: State)
    requires Reaches(es, s)
    ensures forall id | id in s.db.tasks :: id in s.taskLog
  {
    hide Possible, After, Basic;
    InitIsBasic();
    AlwaysBasic(Init, es);
    TasksAreLogged(s);
  }

  /** The switch of ScheduleNew over the kinds of schedule. */
  method FirstRun(spec: Task, nowMs: int) returns (next: Option<int>)
    ensures spec.specType == SpecCron ==> next == NextCron(spec, nowMs)
    ensures spec.specType == SpecDelayed ==> next == Some(nowMs + 1000 * spec.delaySeconds)
    ensures spec.specType == SpecOnce ==> next == Some(if spec.nextRunAt == 0 then nowMs else spec.nextRunAt)
    ensures spec.specType.SpecOther? ==> next == Some(spec.nextRunAt)
  {
    hide NextCron;
    match spec.specType {
      case SpecCron => next := ComputeNextCron(spec, nowMs);
      case SpecDelayed => next := Some(nowMs + spec.delaySeconds * 1000);
      case SpecOnce => next := Some(if spec.nextRunAt == 0 then nowMs else spec.nextRunAt);
      case SpecOther(_) => next := Some(spec.nextRunAt);
    }
  }

  lemma SameSpec(spec: Task, t: Task, now: int)
    requires t == spec.(tags := t.tags, createdAt := t.createdAt, updatedAt := t.updatedAt, nextRunAt := t.nextRunAt)
    ensures NextCron(t, now) == NextCron(spec, now) && (ValidTask(t) <==> ValidTask(spec))
  {
    hide ParseSpec, NextMatch, TrimSpace;
  }

  /** What the creation of a task comes to; a panic rolls its transaction back. */
  datatype Creation = Created(task: Task) | Rejected | Panicked

  /** The row that ScheduleNew makes of a valid task: clean tags, the current time, and the first run time. */
  method NewTask(spec: Task, tags: seq<string>, nowMs: int) returns (reply: Creation)
    requires ValidTask(spec)
    ensures reply.Rejected? <==> spec.specType == SpecCron && NextCron(spec, nowMs).None?
    ensures reply.Panicked? <==> !reply.Rejected? && exists t :: t in tags && PeelsToOneSpace(t)
    ensures reply.Created? ==>
              var t := reply.task;
              && t == spec.(tags := Join(CleanTags(tags), ','), createdAt := nowMs, updatedAt := nowMs,
                            nextRunAt := t.nextRunAt)
              && (spec.specType == SpecCron ==> NextCron(spec, nowMs) == Some(t.nextRunAt))
              && (spec.specType == SpecDelayed ==> t.nextRunAt == nowMs + 1000 * spec.delaySeconds)
              && (spec.specType == SpecOnce ==> t.nextRunAt == if spec.nextRunAt == 0 then nowMs else spec.nextRunAt)
              && ValidTask(t) && FirstDue(t, nowMs)
  {
    hide NextCron, CleanTags, Join, ParseSpec, TrimSpace, PeelsToOneSpace, ValidTask;
    var next := FirstRun(spec, nowMs);
    if next.None? {
      return Rejected;
    }
    var names := CleanEach(tags);
    if names.None? {
      return Panicked;
    }
    var csv := TagsCSV(tags);
    var t := spec.(tags := csv, createdAt := nowMs, updatedAt := nowMs, nextRunAt := next.value);
    SameSpec(spec, t, nowMs);
    ValidKinds(spec);
    reply := Created(t);
  }

  lemma ValidKinds(t: Task)
    requires ValidTask(t)
    ensures !t.specType.SpecOther?
  {
    hide ParseSpec, TrimSpace;
  }

  lemma ScheduleNewStep(s: State, t: Task)
    requires Idling(s) && t.id !in s.taskLog && ValidTask(t) && 0 <= t.createdAt <= s.clock && FirstDue(t, t.createdAt)
    ensures Allowed(s, Event.ScheduleNew(t))
    ensures var s' := Apply(s, Event.ScheduleNew(t));
            && s'.db == s.db.(tasks := s.db.tasks[t.id := t]) && s'.clock == s.clock && s'.runLog == s.runLog
                && Idling(s')
  {
    hide ValidTask, FirstDue;
  }
}

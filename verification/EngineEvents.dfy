/** Which events the engine allows and what each does, column by column. */
module EngineEvents {
  import opened Prelude
  import opened Text
  import opened CronParse
  import opened Model
  import opened Tables
  import opened Engine
  import opened EngineInvariants
  import opened FaultFree
  import opened Effects

  // ---------- what is allowed ----------

  /** Time passes, and the process crashes, at any moment; while it is up, its handlers accept every change of tasks and
      runs. */
  lemma HandlersAccept(s: State, t: TaskId, r: RunId, b: bool, at: int)
    ensures Allowed(s, Wait(at)) <==> s.clock <= at
    ensures Allowed(s, Crash) <==> s.phase == Up || s.phase == Recovering
    ensures Allowed(s, Pause(t, b, at)) <==> s.phase == Up
    ensures Allowed(s, Enable(t, b, at)) <==> s.phase == Up
    ensures Allowed(s, RemoveTask(t)) <==> s.phase == Up
    ensures Allowed(s, RemoveRun(r)) <==> s.phase == Up
  {
    hide ValidTask, FirstDue, IsDueList, RetriesAll, InDispatch;
  }

  /** A manual trigger needs the task, a manual retry the run, its task and an attempt within its budget. */
  lemma RequestsAccepted(s: State, t: TaskId, r: RunId)
    ensures Allowed(s, ReadTrigger(t)) <==> s.phase == Up && t in s.db.tasks
    ensures Allowed(s, ReadRetry(r)) <==>
              && s.phase == Up && r in s.db.runs && s.db.runs[r].taskId in s.db.tasks
              && s.db.runs[r].attempt <= s.db.tasks[s.db.runs[r].taskId].maxRetries
  {
    hide ValidTask, FirstDue, IsDueList, RetriesAll, InDispatch;
  }

  /** A request that was read may be written with any new identifier, or be dropped; every worker may finish, with
      either outcome, or fail. */
  lemma WorkersAccept(s: State, q: Request, id: RunId, ok: bool, at: int)
    ensures Allowed(s, WriteTrigger(q, id, at)) <==>
              q.TriggerRequest? && q in s.requests && id !in s.runLog && 0 <= at <= s.clock
    ensures Allowed(s, WriteRetry(q, id, at)) <==>
              q.RetryRequest? && q in s.requests && id !in s.runLog && 0 <= at <= s.clock
    ensures Allowed(s, DropRequest(q)) <==> q in s.requests
    ensures Allowed(s, Finish(id, ok, at)) <==> id in s.workers && at <= s.clock
    ensures Allowed(s, WorkerError(id)) <==> id in s.workers
  {
    hide ValidTask, FirstDue, IsDueList, RetriesAll, InDispatch;
  }

  /** A Tick begins when the ticker is idle, with the tasks that are due then; each of them is dispatched or skipped; a
      dispatch whose run has ended advances the schedule or is aborted; the Tick ends when none is left. */
  lemma TickerAccepts(s: State, id: RunId, now: int, due: seq<Task>, at: int)
    ensures Allowed(s, TickBegin(now, due)) <==>
              s.phase == Up && s.ticker == Idle && 0 <= now <= s.clock && IsDueList(s.db, now, due)
    ensures s.ticker == Idle ==> !Allowed(s, DispatchCreate(id)) && !Allowed(s, DispatchSkip) && !Allowed(s, TickEnd)
    ensures s.ticker.Tick? && s.ticker.current.None? ==>
              && (Allowed(s, DispatchCreate(id)) <==> s.ticker.queue != [] && id !in s.runLog)
              && (Allowed(s, DispatchSkip) <==> s.ticker.queue != [])
              && (Allowed(s, TickEnd) <==> s.ticker.queue == [])
    ensures s.ticker.Tick? && s.ticker.current.Some? ==>
              && (Allowed(s, DispatchAdvance(at)) <==>
                    s.ticker.current.value.executed && s.ticker.now <= at <= s.clock)
              && (Allowed(s, DispatchAbort) <==> s.ticker.current.value.executed)
              && !Allowed(s, TickEnd)
  {
    hide IsDueList;
  }

  /** A valid task with a new identifier is accepted with the first run time of its kind of schedule. */
  lemma CreationAccepted(s: State, t: Task)
    ensures Allowed(s, ScheduleNew(t)) <==>
              && s.phase == Up && t.id !in s.taskLog && ValidTask(t) && 0 <= t.createdAt <= s.clock
              && (t.specType == SpecCron ==> NextCron(t, t.createdAt) == Some(t.nextRunAt))
              && (t.specType == SpecDelayed ==> t.nextRunAt == t.createdAt + 1000 * t.delaySeconds)
              && (t.specType == SpecOnce && t.nextRunAt == 0 ==> t.createdAt == 0)
  {
    hide NextCron, ParseSpec, TrimSpace, IsDueList, RetriesAll, InDispatch;
  }

  /** Recovery comes after every crash. It marks the running rows and retries those within their budget, each once and
      with a new identifier. */
  lemma RecoveryAccepted(s: State, retries: map<RunId, RunId>, marked: map<RunId, int>)
    ensures Allowed(s, Recover(retries, marked)) <==>
              && s.phase == Down && RetriesExactly(s.db, retries) && (forall id | id in retries :: id !in s.runLog)
              && (forall id :: id in marked <==> id in s.db.runs && s.db.runs[id].status == Running)
              && (forall id | id in marked :: 0 <= marked[id] <= s.clock)
    ensures Allowed(s, RecoverDone) <==> s.phase == Recovering && s.workers == map[]
  {
    RetriesAre(s.db, retries);
    OrphanIdsAre(s.db);
    hide ValidTask, FirstDue, IsDueList, RetriesAll, RetriesExactly, InDispatch, OrphanIds;
    if forall id :: id in marked <==> id in s.db.runs && s.db.runs[id].status == Running {
      assert marked.Keys == OrphanIds(s.db);
    }
  }

  // ---------- what happens to the tables ----------

  lemma CreationDoes(s: State, t: Task)
    requires Allowed(s, ScheduleNew(t))
    ensures Apply(s, ScheduleNew(t)).db == s.db.(tasks := s.db.tasks[t.id := t])
  {
    hide ValidTask, FirstDue;
  }

  /** Each retry is handed to a worker of the recovery. */
  lemma RecoveryDoes(s: State, retries: map<RunId, RunId>, marked: map<RunId, int>)
    requires Allowed(s, Recover(retries, marked))
    ensures var s' := Apply(s, Recover(retries, marked));
            && s'.db.tasks == s.db.tasks && s'.db.stats == s.db.stats
            && RowsAfterRecover(s.db, retries, marked, s'.db)
            && s'.workers == map id | id in retries && id in s'.db.runs :: Worker(s'.db.runs[id], Recovery)
  {
    ApplyRecover(s, retries, marked);
    hide Allowed, Apply, RetriesAll, RecoverRuns, RowsAfterRecover, OrphanIds;
    RecoveredRowsAre(s.db, retries, marked);
  }

  lemma ApplyRecover(s: State, retries: map<RunId, RunId>, marked: map<RunId, int>)
    requires Allowed(s, Recover(retries, marked))
    ensures RetriesAll(s.db, retries) && marked.Keys == OrphanIds(s.db)
    ensures Apply(s, Recover(retries, marked)) == DoRecover(s, retries, marked)
  {
    hide RetriesAll, OrphanIds, DoRecover;
  }

  /** The running rows are orphaned now, and each retry is a pending row that counts one more attempt. */
  ghost predicate RowsAfterRecover(db: Db, retries: map<RunId, RunId>, marked: map<RunId, int>, db': Db) {
    && db'.runs.Keys == db.runs.Keys + retries.Keys
    && (forall id | id in db.runs && db.runs[id].status != Running :: db'.runs[id] == db.runs[id])
    && (forall id | id in db.runs && db.runs[id].status == Running ::
          id in marked && db'.runs[id] == db.runs[id].(status := Orphaned, finishedAt := marked[id]))
    && (forall id | id in retries ::
          && retries[id] in db.runs && retries[id] in marked
          && db'.runs[id] == Run(id, db.runs[retries[id]].taskId, db.runs[retries[id]].attempt + 1, Pending,
                                 marked[retries[id]], 0, 0, ByRetry))
  }

  lemma RecoveredRowsAre(db: Db, retries: map<RunId, RunId>, marked: map<RunId, int>)
    requires RetriesAll(db, retries) && marked.Keys == OrphanIds(db)
    ensures RowsAfterRecover(db, retries, marked, RecoverRuns(db, retries, marked))
    ensures RecoverRuns(db, retries, marked).tasks == db.tasks && RecoverRuns(db, retries, marked).stats == db.stats
    ensures forall id | id in retries :: id in RecoverRuns(db, retries, marked).runs
  {
    RecoveredRows(db, retries, marked);
    OrphansAreNoRetries(db, retries);
    OrphanIdsAre(db);
  }

  /** Pausing, disabling and resuming change one column and the time of the update. */
  lemma PauseDoes(s: State, t: TaskId, b: bool, at: int)
    requires s.phase == Up
    ensures Apply(s, Pause(t, b, at))
            == s.(db := s.db.(tasks := if t !in s.db.tasks then s.db.tasks
                                       else s.db.tasks[t := s.db.tasks[t].(paused := b, updatedAt := at)]))
  {
  }

  lemma EnableDoes(s: State, t: TaskId, b: bool, at: int)
    requires s.phase == Up
    ensures Apply(s, Enable(t, b, at))
            == s.(db := s.db.(tasks := if t !in s.db.tasks then s.db.tasks
                                       else s.db.tasks[t := s.db.tasks[t].(enabled := b, updatedAt := at)]))
  {
  }

  /** Deleting a task deletes its runs. */
  lemma RemovalsDo(s: State, t: TaskId, r: RunId)
    requires s.phase == Up
    ensures Apply(s, RemoveTask(t)).db
            == s.db.(tasks := s.db.tasks - {t},
                     runs := map id | id in s.db.runs && s.db.runs[id].taskId != t :: s.db.runs[id])
    ensures Apply(s, RemoveRun(r)).db == s.db.(runs := s.db.runs - {r})
  {
  }

  /** Waiting, reading, skipping and giving up change no table and no worker. */
  lemma NothingIsWritten(s: State, e: Event)
    requires Allowed(s, e)
    requires e.Wait? || e.TickBegin? || e.DispatchSkip? || e.DispatchAbort? || e.TickEnd? || e.ReadTrigger?
             || e.ReadRetry? || e.DropRequest?
    ensures Apply(s, e).db == s.db && Apply(s, e).runLog == s.runLog && Apply(s, e).workers == s.workers
  {
    hide IsDueList, RetriesAll, ValidTask, FirstDue, CountAbort;
  }

  /** A crash changes no table either, but empties the memory of the process. */
  lemma CrashForgets(s: State)
    requires Allowed(s, Crash)
    ensures var s' := Apply(s, Crash);
            && s'.db == s.db && s'.runLog == s.runLog && s'.phase == Down && s'.ticker == Idle
            && s'.workers == map[] && s'.lost == {} && s'.requests == multiset{}
  {
    hide CountAbort;
  }

  /** An execution that fails changes no table; its worker is gone, and the dispatch that waited for it ends. */
  lemma FailureIsLost(s: State, id: RunId)
    requires id in s.workers
    ensures var s' := Apply(s, WorkerError(id));
            && s'.db == s.db && s'.runLog == s.runLog && s'.phase == s.phase
            && s'.workers == s.workers - {id} && s'.lost == s.lost + {id}
            && s'.ticker == if s.workers[id].owner == Ticking && s.ticker.Tick? then s.ticker.(current := None)
                            else s.ticker
  {
    hide CountAbort;
  }

  /** A manual trigger creates a running run, a manual retry a pending one that counts one more attempt. */
  lemma RequestsDo(s: State, q: Request, id: RunId, at: int)
    ensures Allowed(s, WriteTrigger(q, id, at)) ==>
              var run := Run(id, q.task.id, 1, Running, at, at, 0, ByHand);
              var s' := Apply(s, WriteTrigger(q, id, at));
              && s'.db == s.db.(runs := s.db.runs[id := run]) && s'.workers == s.workers[id := Worker(run, Manual)]
              && s'.requests == s.requests - multiset{q}
    ensures Allowed(s, WriteRetry(q, id, at)) ==>
              var run := Run(id, q.run.taskId, q.run.attempt + 1, Pending, at, 0, 0, ByRetry);
              var s' := Apply(s, WriteRetry(q, id, at));
              && s'.db == s.db.(runs := s.db.runs[id := run]) && s'.workers == s.workers[id := Worker(run, Manual)]
              && s'.requests == s.requests - multiset{q}
  {
  }

  /** A dispatch creates a running run for the first task of the queue, and later sets its next run time. */
  lemma DispatchesDo(s: State, id: RunId, at: int)
    ensures Allowed(s, DispatchCreate(id)) ==>
              var task := s.ticker.queue[0];
              var run := Run(id, task.id, 1, Running, s.ticker.now, s.ticker.now, 0, BySchedule);
              var s' := Apply(s, DispatchCreate(id));
              && s'.db == s.db.(runs := s.db.runs[id := run]) && s'.workers == s.workers[id := Worker(run, Ticking)]
              && s'.ticker == Tick(s.ticker.now, s.ticker.queue[1..], Some(Dispatch(task, id, false)))
    ensures Allowed(s, DispatchAdvance(at)) ==>
              var task := s.ticker.current.value.task;
              var n := if task.specType == SpecCron then NextCron(task, at) else None;
              var s' := Apply(s, DispatchAdvance(at));
              && s'.ticker == s.ticker.(current := None) && s'.workers == s.workers
              && s'.db == s.db.(tasks := if task.id !in s.db.tasks then s.db.tasks
                                         else s.db.tasks[task.id := s.db.tasks[task.id].(
                                                           nextRunAt := if n.Some? then n.value else 0,
                                                           lastRunAt := s.ticker.now, updatedAt := s.clock)])
  {
  }

  /** The end of an execution writes the outcome to the run, its day and its task; the worker is gone. */
  lemma FinishDoes(s: State, id: RunId, ok: bool, at: int)
    requires id in s.workers && at <= s.clock
    ensures var run, s' := s.workers[id].run, Apply(s, Finish(id, ok, at));
            var day := run.scheduledAt / 86_400_000;
            var was := if day in s.db.stats then s.db.stats[day] else DailyStat(0, 0, 0);
            && s'.workers == s.workers - {id}
            && s'.db.runs == (if run.id !in s.db.runs then s.db.runs
                              else s.db.runs[run.id := s.db.runs[run.id].(status := if ok then Succeeded else Failed,
                                                                          startedAt := run.startedAt,
                                                                          finishedAt := at)])
            && s'.db.tasks == (if run.taskId !in s.db.tasks then s.db.tasks
                               else s.db.tasks[run.taskId := s.db.tasks[run.taskId].(lastRunAt := run.scheduledAt)])
            && s'.db.stats == s.db.stats[day := if ok then was.(succeeded := was.succeeded + 1)
                                                else was.(failed := was.failed + 1)]
  {
    OutcomeCommitted(s.db, s.workers[id].run, ok, at);
    hide FinishRun;
  }

  /** A task that was paused or disabled is active again once both are undone, and otherwise as it was. */
  lemma ResumedTaskIsActive(s: State, t: TaskId, at: int)
    requires s.phase == Up && t in s.db.tasks
    ensures var es := [Pause(t, false, at), Enable(t, true, at)];
            && Possible(s, es) && t in After(s, es).db.tasks
            && After(s, es).db.tasks[t] == s.db.tasks[t].(paused := false, enabled := true, updatedAt := at)
  {
    var e1, e2 := Pause(t, false, at), Enable(t, true, at);
    HandlersAccept(s, t, 0, false, at);
    var s1 := Apply(s, e1);
    PauseDoes(s, t, false, at);
    HandlersAccept(s1, t, 0, true, at);
    EnableDoes(s1, t, true, at);
    hide Apply, Allowed;
    TwoEvents(s, e1, e2);
  }

  lemma TwoEvents(s: State, e1: Event, e2: Event)
    requires Allowed(s, e1) && Allowed(Apply(s, e1), e2)
    ensures Possible(s, [e1, e2]) && After(s, [e1, e2]) == Apply(Apply(s, e1), e2)
  {
    hide Apply, Allowed;
    OneEvent(Apply(s, e1), e2);
    assert [e1, e2][1..] == [e2];
  }

  // ---------- what the history records ----------

  /** Only waiting moves the clock; only crashes and recoveries move the phase; only deletions are deletions; only a
      failed execution is lost, until the process ends. */
  ghost predicate KeepsCourse(s: State, e: Event, s': State) {
    && s'.clock == (if e.Wait? then e.until else s.clock)
    && s'.phase
       == (if e.Crash? then Down else if e.Recover? then Recovering else if e.RecoverDone? then Up else s.phase)
    && (s'.deleted <==> s.deleted || e.RemoveTask? || e.RemoveRun?)
    && s'.lost == (if e.Crash? then {} else if e.WorkerError? then s.lost + {e.id} else s.lost)
  }

  lemma EventsKeepCourse(s: State, e: Event)
    requires Allowed(s, e)
    ensures KeepsCourse(s, e, Apply(s, e))
  {
    hide Allowed, Apply, KeepsCourse;
    if TickerEvent(e) {
      TickerKeepsCourse(s, e);
    } else if RequestEvent(e) {
      RequestKeepsCourse(s, e);
    } else if ProcessEvent(e) {
      ProcessKeepsCourse(s, e);
    } else {
      RowKeepsCourse(s, e);
    }
  }

  lemma TickerKeepsCourse(s: State, e: Event)
    requires Allowed(s, e) && TickerEvent(e)
    ensures KeepsCourse(s, e, Apply(s, e))
  {
    hide FinishRun, RecoverRuns, SetNextRun, CreateRun, NextDue, ValidTask, FirstDue, IsDueList, RetriesAll, CountAbort;
  }

  lemma CreateKeepsCourse(s: State, run: Run, parent: Option<RunId>)
    ensures var s' := Create(s, run, parent, Manual);
            s'.clock == s.clock && s'.phase == s.phase && s'.deleted == s.deleted && s'.lost == s.lost
  {
  }

  lemma SameCourse(s: State, e: Event)
    requires Allowed(s, e) && RequestEvent(e)
    requires var s' := Apply(s, e);
             s'.clock == s.clock && s'.phase == s.phase && s'.deleted == s.deleted && s'.lost == s.lost
    ensures KeepsCourse(s, e, Apply(s, e))
  {
    hide Allowed, Apply;
  }

  lemma RequestKeepsCourse(s: State, e: Event)
    requires Allowed(s, e) && RequestEvent(e)
    ensures KeepsCourse(s, e, Apply(s, e))
  {
    hide Create, NewRun, RetryOf, KeepsCourse;
    match e
    case WriteTrigger(request, id, at) =>
      CreateKeepsCourse(s.(requests := s.requests - multiset{request}), NewRun(id, request.task.id, ByHand, at), None);
      SameCourse(s, e);
    case WriteRetry(request, id, at) =>
      CreateKeepsCourse(s.(requests := s.requests - multiset{request}), RetryOf(request.run, id, at),
                        Some(request.run.id));
      SameCourse(s, e);
    case _ => SameCourse(s, e);
  }

  lemma ProcessKeepsCourse(s: State, e: Event)
    requires Allowed(s, e) && ProcessEvent(e)
    ensures KeepsCourse(s, e, Apply(s, e))
  {
    hide FinishRun, RecoverRuns, SetNextRun, CreateRun, NextDue, ValidTask, FirstDue, IsDueList, RetriesAll, CountAbort;
  }

  lemma RowKeepsCourse(s: State, e: Event)
    requires Allowed(s, e) && !TickerEvent(e) && !RequestEvent(e) && !ProcessEvent(e)
    ensures KeepsCourse(s, e, Apply(s, e))
  {
    hide FinishRun, RecoverRuns, SetNextRun, CreateRun, NextDue, ValidTask, FirstDue, IsDueList, RetriesAll;
  }

  /** The event ends the dispatch of the task under way without advancing its schedule: the dispatch is aborted, its
      execution fails, or the process crashes. */
  ghost predicate Aborts(s: State, e: Event, t: TaskId) {
    && s.ticker.Tick? && s.ticker.current.Some? && s.ticker.current.value.task.id == t
    && (e.DispatchAbort? || e.Crash? || (e.WorkerError? && e.id in s.workers && s.workers[e.id].owner == Ticking))
  }

  /** The number of aborted dispatches of a task counts exactly these events. */
  lemma AbortsAreCounted(s: State, e: Event, t: TaskId)
    requires Allowed(s, e) && t in s.taskLog
    ensures CountsAbort(s, e, Apply(s, e), t)
  {
    hide Allowed, Apply, CountsAbort;
    if TickerEvent(e) {
      TickerCountsAbort(s, e, t);
    } else if RequestEvent(e) {
      RequestCountsAbort(s, e, t);
    } else if ProcessEvent(e) {
      ProcessCountsAbort(s, e, t);
    } else {
      RowCountsAbort(s, e, t);
    }
  }

  ghost predicate CountsAbort(s: State, e: Event, s': State, t: TaskId)
    requires t in s.taskLog
  {
    && t in s'.taskLog && s'.taskLog[t].created == s.taskLog[t].created
    && s'.taskLog[t].aborted == s.taskLog[t].aborted + if Aborts(s, e, t) then 1 else 0
  }

  lemma TickerCountsAbort(s: State, e: Event, t: TaskId)
    requires Allowed(s, e) && TickerEvent(e) && t in s.taskLog
    ensures CountsAbort(s, e, Apply(s, e), t)
  {
    hide FinishRun, RecoverRuns, SetNextRun, CreateRun, NextDue, ValidTask, FirstDue, IsDueList, RetriesAll;
  }

  lemma RequestCountsAbort(s: State, e: Event, t: TaskId)
    requires Allowed(s, e) && RequestEvent(e) && t in s.taskLog
    ensures CountsAbort(s, e, Apply(s, e), t)
  {
    hide NewRun, RetryOf, CreateRun;
  }

  lemma CrashCountsAbort(s: State, t: TaskId)
    requires Allowed(s, Crash) && t in s.taskLog
    ensures CountsAbort(s, Crash, Apply(s, Crash), t)
  {
  }

  lemma FailureCountsAbort(s: State, id: RunId, t: TaskId)
    requires id in s.workers && t in s.taskLog
    ensures CountsAbort(s, WorkerError(id), Apply(s, WorkerError(id)), t)
  {
  }

  lemma ProcessCountsAbort(s: State, e: Event, t: TaskId)
    requires Allowed(s, e) && ProcessEvent(e) && t in s.taskLog
    ensures CountsAbort(s, e, Apply(s, e), t)
  {
    if e.Crash? {
      CrashCountsAbort(s, t);
    } else if e.WorkerError? {
      FailureCountsAbort(s, e.id, t);
    } else {
      hide FinishRun, RecoverRuns, RetriesAll, CountAbort;
    }
  }

  lemma RowCountsAbort(s: State, e: Event, t: TaskId)
    requires Allowed(s, e) && !TickerEvent(e) && !RequestEvent(e) && !ProcessEvent(e) && t in s.taskLog
    ensures CountsAbort(s, e, Apply(s, e), t)
  {
    hide FinishRun, RecoverRuns, SetNextRun, CreateRun, NextDue, ValidTask, FirstDue, IsDueList, RetriesAll;
  }
}

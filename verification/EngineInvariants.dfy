/** What holds in every reachable state of the engine: the rows agree with the history, and every running row has one
    worker. */
module EngineInvariants {
  import opened Prelude
  import opened Model
  import opened Tables
  import opened Engine

  // ---------- rows and history ----------

  ghost predicate RunMatches(run: Run, log: RunLog) {
    run.taskId == log.task && run.attempt == log.attempt && run.trigger == log.trigger
  }

  ghost predicate TaskMatches(t: Task, log: TaskLog) {
    && t.id == log.created.id && t.specType == log.created.specType && t.cronExpr == log.created.cronExpr
    && t.maxRetries == log.created.maxRetries && t.createdAt == log.created.createdAt
  }

  ghost predicate KnownTask(taskLog: map<TaskId, TaskLog>, t: Task) {
    t.id in taskLog && TaskMatches(t, taskLog[t.id])
  }

  ghost predicate KnownRun(runLog: map<RunId, RunLog>, run: Run) {
    run.id in runLog && RunMatches(run, runLog[run.id])
  }

  ghost predicate RunsLogged(runs: map<RunId, Run>, runLog: map<RunId, RunLog>) {
    forall id | id in runs :: runs[id].id == id && KnownRun(runLog, runs[id])
  }

  ghost predicate TasksLogged(tasks: map<TaskId, Task>, taskLog: map<TaskId, TaskLog>) {
    forall id | id in tasks ::
      tasks[id].id == id && KnownTask(taskLog, tasks[id]) && tasks[id].nextRunAt == taskLog[id].nextDue
  }

  ghost predicate LogsAgree(runLog: map<RunId, RunLog>, taskLog: map<TaskId, TaskLog>) {
    && (forall id | id in runLog :: runLog[id].task in taskLog)
    && (forall id | id in taskLog :: taskLog[id].created.id == id && 0 <= taskLog[id].created.maxRetries)
  }

  ghost predicate RequestLogged(runLog: map<RunId, RunLog>, taskLog: map<TaskId, TaskLog>, r: Request) {
    match r
    case TriggerRequest(task) => KnownTask(taskLog, task)
    case RetryRequest(run, task) =>
      KnownRun(runLog, run) && KnownTask(taskLog, task) && task.id == run.taskId && run.attempt <= task.maxRetries
  }

  ghost predicate RequestsLogged(requests: multiset<Request>, runLog: map<RunId, RunLog>,
                                 taskLog: map<TaskId, TaskLog>) {
    forall r | r in requests :: RequestLogged(runLog, taskLog, r)
  }

  ghost predicate TickerLogged(ticker: Ticker, runLog: map<RunId, RunLog>, taskLog: map<TaskId, TaskLog>) {
    ticker.Tick? ==>
      && (forall t | t in ticker.queue :: KnownTask(taskLog, t))
      && (ticker.current.Some? ==> KnownTask(taskLog, ticker.current.value.task) && ticker.current.value.run in runLog)
  }

  ghost predicate WorkersLogged(workers: map<RunId, Worker>, lost: set<RunId>, runLog: map<RunId, RunLog>) {
    && (forall id | id in workers :: workers[id].run.id == id && KnownRun(runLog, workers[id].run))
    && (forall id | id in lost :: id in runLog)
  }

  /** Rows and memory are as the logs say. */
  ghost predicate Logged(s: State) {
    && RunsLogged(s.db.runs, s.runLog) && TasksLogged(s.db.tasks, s.taskLog) && LogsAgree(s.runLog, s.taskLog)
    && RequestsLogged(s.requests, s.runLog, s.taskLog) && TickerLogged(s.ticker, s.runLog, s.taskLog)
    && WorkersLogged(s.workers, s.lost, s.runLog)
  }

  /** Logs only grow, and their fixed parts never change. */
  ghost predicate Grows(runLog: map<RunId, RunLog>, runLog': map<RunId, RunLog>,
                        taskLog: map<TaskId, TaskLog>, taskLog': map<TaskId, TaskLog>)
  {
    && (forall id | id in runLog :: id in runLog' && runLog'[id] == runLog[id])
    && (forall id | id in taskLog :: id in taskLog' && taskLog'[id].created == taskLog[id].created)
  }

  /** Larger logs still cover what the smaller ones did. */
  lemma GrowthKeepsLogged(s: State, runLog': map<RunId, RunLog>, taskLog': map<TaskId, TaskLog>)
    requires Logged(s) && Grows(s.runLog, runLog', s.taskLog, taskLog')
    ensures RunsLogged(s.db.runs, runLog') && RequestsLogged(s.requests, runLog', taskLog')
    ensures TickerLogged(s.ticker, runLog', taskLog') && WorkersLogged(s.workers, s.lost, runLog')
  {
    hide TasksLogged, LogsAgree;
    assert forall t | KnownTask(s.taskLog, t) :: KnownTask(taskLog', t);
    assert forall r | KnownRun(s.runLog, r) :: KnownRun(runLog', r);
  }

  // ---------- one worker per running row ----------

  ghost predicate WorkersMatchRows(runs: map<RunId, Run>, workers: map<RunId, Worker>, lost: set<RunId>) {
    && (forall id | id in workers ::
          && workers[id].run.status == (if workers[id].run.trigger == ByRetry then Pending else Running)
          && (id in runs ==> runs[id] == workers[id].run)
          && id !in lost)
    && (forall id | id in lost && id in runs :: !Terminal(runs[id].status))
  }

  ghost predicate RunningOwned(phase: Phase, runs: map<RunId, Run>, workers: map<RunId, Worker>, lost: set<RunId>) {
    phase != Down ==> forall id | id in runs && runs[id].status == Running :: id in workers || id in lost
  }

  /** While the process is down nothing is held in memory; recovery runs alone and leaves no running row. */
  ghost predicate PhaseOk(s: State) {
    && (s.phase == Down ==> s.workers == map[] && s.lost == {})
    && (s.phase != Up ==> s.requests == multiset{} && s.ticker == Idle)
    && (s.phase == Recovering ==> OrphanIds(s.db) == {})
  }

  /** The dispatch under way waits for its own worker, and no other worker belongs to the ticker. */
  ghost predicate DispatchOwned(ticker: Ticker, workers: map<RunId, Worker>) {
    && (forall id | id in workers && workers[id].owner == Ticking ::
          ticker.Tick? && ticker.current.Some? && ticker.current.value.run == id && !ticker.current.value.executed)
    && (ticker.Tick? && ticker.current.Some? && !ticker.current.value.executed ==>
          ticker.current.value.run in workers && workers[ticker.current.value.run].owner == Ticking)
  }

  ghost predicate Owned(s: State) {
    && WorkersMatchRows(s.db.runs, s.workers, s.lost) && RunningOwned(s.phase, s.db.runs, s.workers, s.lost)
    && PhaseOk(s) && DispatchOwned(s.ticker, s.workers)
  }

  ghost predicate Basic(s: State) {
    Logged(s) && Owned(s)
  }

  // ---------- each kind of event keeps it ----------

  lemma AddRun(runs: map<RunId, Run>, runLog: map<RunId, RunLog>, run: Run, log: RunLog)
    requires RunsLogged(runs, runLog) && RunMatches(run, log)
    ensures RunsLogged(runs[run.id := run], runLog[run.id := log])
  {
  }

  lemma AddWorker(s: State, run: Run, owner: Owner)
    requires Logged(s) && Owned(s) && s.phase == Up && run.id !in s.runLog
    requires run.status == if run.trigger == ByRetry then Pending else Running
    ensures WorkersMatchRows(s.db.runs[run.id := run], s.workers[run.id := Worker(run, owner)], s.lost)
    ensures RunningOwned(Up, s.db.runs[run.id := run], s.workers[run.id := Worker(run, owner)], s.lost)
    ensures owner != Ticking ==> DispatchOwned(s.ticker, s.workers[run.id := Worker(run, owner)])
  {
    hide TasksLogged, LogsAgree, RequestsLogged, KnownTask, KnownRun;
  }

  lemma CreateKeepsBasic(s: State, run: Run, parent: Option<RunId>, owner: Owner)
    requires Basic(s) && s.phase == Up && run.id !in s.runLog && run.taskId in s.taskLog && owner != Ticking
    requires run.status == if run.trigger == ByRetry then Pending else Running
    ensures Basic(Create(s, run, parent, owner))
  {
    hide RunsLogged, TasksLogged, RequestsLogged, TickerLogged, WorkersMatchRows, RunningOwned, DispatchOwned;
    var s' := Create(s, run, parent, owner);
    GrowthKeepsLogged(s, s'.runLog, s'.taskLog);
    AddRun(s.db.runs, s.runLog, run, LogOf(run, parent));
    AddWorker(s, run, owner);
  }

  /** A note about dispatches in a task's log leaves everything in place. */
  lemma NoteKeepsLogged(s: State, id: TaskId, log: TaskLog)
    requires Logged(s) && id in s.taskLog
    requires log.created == s.taskLog[id].created && log.nextDue == s.taskLog[id].nextDue
    ensures Logged(s.(taskLog := s.taskLog[id := log]))
  {
    hide RunsLogged, RequestsLogged, TickerLogged, WorkersLogged;
    GrowthKeepsLogged(s, s.runLog, s.taskLog[id := log]);
  }

  lemma NextInQueue(s: State)
    requires Logged(s) && s.ticker.Tick? && s.ticker.queue != []
    ensures KnownTask(s.taskLog, s.ticker.queue[0])
    ensures TickerLogged(s.ticker.(queue := s.ticker.queue[1..]), s.runLog, s.taskLog)
  {
    hide RunsLogged, TasksLogged, LogsAgree, RequestsLogged, WorkersLogged, KnownTask;
    assert s.ticker.queue[0] in s.ticker.queue;
  }

  function SkipTask(s: State): State
    requires s.ticker.Tick? && s.ticker.queue != []
  {
    s.(ticker := s.ticker.(queue := s.ticker.queue[1..]))
  }

  lemma SkipKeepsBasic(s: State)
    requires Basic(s) && s.ticker.Tick? && s.ticker.queue != []
    ensures Basic(SkipTask(s))
  {
    hide RunsLogged, TasksLogged, LogsAgree, RequestsLogged, WorkersLogged, TickerLogged, WorkersMatchRows,
        RunningOwned;
    NextInQueue(s);
  }

  lemma CreateForTicker(s: State, run: Run, task: Task)
    requires Basic(s) && s.ticker.Tick? && s.ticker.current == None
    requires run.id !in s.runLog && run.taskId == task.id && KnownTask(s.taskLog, task)
    requires run.status == Running && run.trigger != ByRetry
    ensures Basic(Create(s, run, None, Ticking).(ticker := s.ticker.(current := Some(Dispatch(task, run.id, false)))))
  {
    hide RunsLogged, TasksLogged, RequestsLogged, WorkersMatchRows, RunningOwned;
    var s' := Create(s, run, None, Ticking);
    GrowthKeepsLogged(s, s'.runLog, s'.taskLog);
    AddRun(s.db.runs, s.runLog, run, LogOf(run, None));
    AddWorker(s, run, Ticking);
  }

  /** The dispatch of the next task: take it from the queue, note it, create its run, and wait for that run. */
  lemma DispatchCreateKeepsBasic(s: State, id: RunId)
    requires Basic(s) && s.ticker.Tick? && s.ticker.current == None && s.ticker.queue != [] && id !in s.runLog
    ensures Basic(DoDispatchCreate(s, id))
  {
    hide Logged, Owned, Create;
    var task := s.ticker.queue[0];
    var run := NewRun(id, task.id, BySchedule, s.ticker.now);
    NextInQueue(s);
    SkipKeepsBasic(s);
    var s1 := SkipTask(s);
    var log := s.taskLog[task.id].(dispatched := s.taskLog[task.id].dispatched + {task.nextRunAt});
    var s2 := s1.(taskLog := s1.taskLog[task.id := log]);
    NoteKeepsBasic(s1, task.id, log);
    KnownTaskStays(s1, task, log);
    CreateForTicker(s2, run, task);
    DispatchCreateIs(s, id, task, run, log);
  }

  lemma NoteKeepsBasic(s: State, id: TaskId, log: TaskLog)
    requires Basic(s) && id in s.taskLog
    requires log.created == s.taskLog[id].created && log.nextDue == s.taskLog[id].nextDue
    ensures Basic(s.(taskLog := s.taskLog[id := log]))
  {
    hide Logged, WorkersMatchRows, RunningOwned, DispatchOwned;
    NoteKeepsLogged(s, id, log);
  }

  lemma KnownTaskStays(s: State, task: Task, log: TaskLog)
    requires KnownTask(s.taskLog, task) && log.created == s.taskLog[task.id].created
    ensures KnownTask(s.taskLog[task.id := log], task)
  {
  }

  lemma DispatchCreateIs(s: State, id: RunId, task: Task, run: Run, log: TaskLog)
    requires s.ticker.Tick? && s.ticker.queue != [] && task == s.ticker.queue[0] && task.id in s.taskLog
    requires run == NewRun(id, task.id, BySchedule, s.ticker.now)
    requires log == s.taskLog[task.id].(dispatched := s.taskLog[task.id].dispatched + {task.nextRunAt})
    ensures var s2 := SkipTask(s).(taskLog := s.taskLog[task.id := log]);
            DoDispatchCreate(s, id)
            == Create(s2, run, None, Ticking).(ticker := s2.ticker.(current := Some(Dispatch(task, run.id, false))))
  {
  }

  /** The rescheduling of a task: its row, if it is still there, and its log get the same next run time. */
  lemma RescheduleKeepsBasic(s: State, id: TaskId, next: int, last: int, at: int)
    requires Basic(s) && id in s.taskLog
    ensures Basic(s.(db := SetNextRun(s.db, id, next, last, at),
                     taskLog := s.taskLog[id := s.taskLog[id].(nextDue := next)]))
  {
    hide RunsLogged, RequestsLogged, WorkersLogged, TickerLogged, WorkersMatchRows, RunningOwned, DispatchOwned;
    GrowthKeepsLogged(s, s.runLog, s.taskLog[id := s.taskLog[id].(nextDue := next)]);
  }

  lemma EndDispatchKeepsBasic(s: State)
    requires Basic(s) && InDispatch(s) && s.ticker.current.value.executed
    ensures Basic(s.(ticker := s.ticker.(current := None)))
  {
    hide RunsLogged, TasksLogged, LogsAgree, RequestsLogged, WorkersLogged, WorkersMatchRows, RunningOwned;
  }

  lemma DispatchAdvanceKeepsBasic(s: State, at: int)
    requires Basic(s) && InDispatch(s) && s.ticker.current.value.executed
    ensures Basic(DoDispatchAdvance(s, at))
  {
    hide Owned, RunsLogged, TasksLogged, LogsAgree, RequestsLogged, WorkersLogged, NextDue;
    var task := s.ticker.current.value.task;
    EndDispatchKeepsBasic(s);
    RescheduleKeepsBasic(s.(ticker := s.ticker.(current := None)), task.id, NextDue(task, at), s.ticker.now, s.clock);
  }

  lemma DispatchAbortKeepsBasic(s: State)
    requires Basic(s) && InDispatch(s) && s.ticker.current.value.executed
    ensures Basic(DoDispatchAbort(s))
  {
    hide Owned, RunsLogged, TasksLogged, LogsAgree, RequestsLogged, WorkersLogged;
    var id := s.ticker.current.value.task.id;
    var s1 := s.(ticker := s.ticker.(current := None));
    EndDispatchKeepsBasic(s);
    NoteKeepsBasic(s1, id, s.taskLog[id].(aborted := s.taskLog[id].aborted + 1));
  }

  lemma TickBeginKeepsBasic(s: State, now: int, due: seq<Task>)
    requires Basic(s) && s.phase == Up && s.ticker == Idle && IsDueList(s.db, now, due)
    ensures Basic(s.(ticker := Tick(now, due, None)))
  {
    hide RunsLogged, LogsAgree, RequestsLogged, WorkersLogged, WorkersMatchRows, RunningOwned, KnownTask;
    forall t | t in due ensures KnownTask(s.taskLog, t) {
      var i :| 0 <= i < |due| && due[i] == t;
      assert due[i].id in DueIds(s.db, now);
    }
  }

  lemma TickEndKeepsBasic(s: State)
    requires Basic(s) && s.ticker.Tick? && s.ticker.current == None
    ensures Basic(s.(ticker := Idle))
  {
    hide RunsLogged, TasksLogged, LogsAgree, RequestsLogged, WorkersLogged, WorkersMatchRows, RunningOwned;
  }

  lemma ScheduleNewKeepsBasic(s: State, task: Task)
    requires Basic(s) && s.phase == Up && task.id !in s.taskLog && 0 <= task.maxRetries
    ensures Basic(s.(db := s.db.(tasks := s.db.tasks[task.id := task]),
                     taskLog := s.taskLog[task.id := TaskLog(task, task.nextRunAt, {}, 0)]))
  {
    hide RunsLogged, RequestsLogged, WorkersLogged, TickerLogged, WorkersMatchRows, RunningOwned, DispatchOwned;
    GrowthKeepsLogged(s, s.runLog, s.taskLog[task.id := TaskLog(task, task.nextRunAt, {}, 0)]);
  }

  /** Requests come and go; what they carry was read from the rows. */
  lemma RequestsKeepBasic(s: State, requests: multiset<Request>)
    requires Basic(s) && s.phase == Up
    requires forall r | r in requests :: r in s.requests || RequestLogged(s.runLog, s.taskLog, r)
    ensures Basic(s.(requests := requests))
  {
    hide RunsLogged, TasksLogged, LogsAgree, WorkersLogged, TickerLogged, WorkersMatchRows, RunningOwned, DispatchOwned;
    hide RequestLogged;
  }

  lemma ReadsAreLogged(s: State, task: TaskId, run: RunId)
    requires Basic(s)
    ensures task in s.db.tasks ==> RequestLogged(s.runLog, s.taskLog, TriggerRequest(s.db.tasks[task]))
    ensures run in s.db.runs && s.db.runs[run].taskId in s.db.tasks
            && s.db.runs[run].attempt <= s.db.tasks[s.db.runs[run].taskId].maxRetries ==>
              RequestLogged(s.runLog, s.taskLog, RetryRequest(s.db.runs[run], s.db.tasks[s.db.runs[run].taskId]))
  {
    hide Owned, RequestsLogged, WorkersLogged, TickerLogged;
  }

  lemma WriteKeepsBasic(s: State, request: Request, run: Run, parent: Option<RunId>)
    requires Basic(s) && request in s.requests && run.id !in s.runLog
    requires run.taskId == if request.TriggerRequest? then request.task.id else request.run.taskId
    requires run.status == if run.trigger == ByRetry then Pending else Running
    ensures Basic(Create(s.(requests := s.requests - multiset{request}), run, parent, Manual))
  {
    hide Logged, Owned, Create;
    RequestsWhenUp(s, request);
    var s1 := s.(requests := s.requests - multiset{request});
    RequestsKeepBasic(s, s1.requests);
    CreateKeepsBasic(s1, run, parent, Manual);
  }

  lemma RequestsWhenUp(s: State, request: Request)
    requires Basic(s) && request in s.requests
    ensures s.phase == Up
    ensures (if request.TriggerRequest? then request.task.id else request.run.taskId) in s.taskLog
  {
    hide RunsLogged, TasksLogged, LogsAgree, WorkersLogged, TickerLogged, WorkersMatchRows, RunningOwned, DispatchOwned;
  }

  lemma FinishRows(db: Db, run: Run, ok: bool, at: int)
    ensures var db' := FinishRun(db, run, ok, at);
            && db'.runs == (if run.id !in db.runs then db.runs
                            else db.runs[run.id := db.runs[run.id].(status := Outcome(ok),
                                                                    startedAt := run.startedAt, finishedAt := at)])
            && db'.tasks == SetLastRun(db, run.taskId, run.scheduledAt).tasks
  {
  }

  lemma FinishKeepsLogged(s: State, id: RunId, ok: bool, at: int)
    requires Basic(s) && id in s.workers
    ensures Logged(DoFinish(s, id, ok, at))
  {
    hide RequestsLogged, Owned, FinishRun;
    FinishRows(s.db, s.workers[id].run, ok, at);
  }

  lemma FinishKeepsOwned(s: State, id: RunId, ok: bool, at: int)
    requires Basic(s) && id in s.workers
    ensures Owned(DoFinish(s, id, ok, at))
  {
    hide RunsLogged, TasksLogged, RequestsLogged, TickerLogged, KnownRun, FinishRun;
    FinishRows(s.db, s.workers[id].run, ok, at);
  }

  lemma WorkerErrorKeepsBasic(s: State, id: RunId)
    requires Basic(s) && id in s.workers
    ensures Basic(DoWorkerError(s, id))
  {
    hide Logged, Owned;
    var s1 := s.(workers := s.workers - {id}, lost := s.lost + {id});
    if s.workers[id].owner == Ticking {
      TickerWorker(s, id);
      var s2 := s.(ticker := s.ticker.(current := Some(s.ticker.current.value.(executed := true))),
                   workers := s.workers - {id}, lost := s.lost + {id});
      LoseTickerWorker(s, id);
      DispatchAbortKeepsBasic(s2);
      assert DoDispatchAbort(s2) == DoDispatchAbort(s1);
    } else {
      LoseWorker(s, id);
    }
  }

  lemma TickerWorker(s: State, id: RunId)
    requires Basic(s) && id in s.workers && s.workers[id].owner == Ticking
    ensures s.phase == Up && InDispatch(s) && s.ticker.current.value.run == id
  {
    hide Logged, WorkersMatchRows, RunningOwned;
  }

  lemma LoseWorker(s: State, id: RunId)
    requires Basic(s) && id in s.workers && s.workers[id].owner != Ticking
    ensures Basic(s.(workers := s.workers - {id}, lost := s.lost + {id}))
  {
    hide RunsLogged, TasksLogged, LogsAgree, RequestsLogged, TickerLogged;
  }

  lemma LoseTickerWorker(s: State, id: RunId)
    requires Basic(s) && id in s.workers && s.workers[id].owner == Ticking
    requires InDispatch(s) && s.ticker.current.value.run == id
    ensures Basic(s.(ticker := s.ticker.(current := Some(s.ticker.current.value.(executed := true))),
                     workers := s.workers - {id}, lost := s.lost + {id}))
  {
    hide RunsLogged, TasksLogged, LogsAgree, RequestsLogged;
  }

  /** Changes to flags of task rows, and the removal of rows, touch nothing else. */
  lemma TaskFlagsKeepBasic(s: State, tasks: map<TaskId, Task>)
    requires Basic(s) && forall id | id in tasks ::
               id in s.db.tasks && tasks[id].(enabled := s.db.tasks[id].enabled, paused := s.db.tasks[id].paused,
                                              updatedAt := s.db.tasks[id].updatedAt) == s.db.tasks[id]
    ensures Basic(s.(db := s.db.(tasks := tasks)))
  {
    hide RunsLogged, LogsAgree, RequestsLogged, WorkersLogged, TickerLogged, WorkersMatchRows, RunningOwned,
        DispatchOwned;
  }

  lemma RemovalKeepsBasic(s: State, runs: map<RunId, Run>)
    requires Basic(s) && s.phase == Up && forall id | id in runs :: id in s.db.runs && runs[id] == s.db.runs[id]
    ensures Basic(s.(db := s.db.(runs := runs), deleted := true))
  {
    hide TasksLogged, LogsAgree, RequestsLogged, WorkersLogged, TickerLogged, DispatchOwned, KnownRun;
  }

  lemma RemoveTaskKeepsBasic(s: State, id: TaskId)
    requires Basic(s) && s.phase == Up
    ensures Basic(s.(db := DeleteTask(s.db, id), deleted := true))
  {
    hide Basic;
    var s1 := s.(db := s.db.(tasks := s.db.tasks - {id}));
    TaskFlagsKeepBasic(s, s1.db.tasks);
    RemovalKeepsBasic(s1, DeleteTask(s.db, id).runs);
  }

  lemma CrashKeepsBasic(s: State)
    requires Basic(s)
    ensures Basic(DoCrash(s))
  {
    hide Logged, Owned, RunsLogged, TasksLogged;
    var down := s.(phase := Down, ticker := Idle, workers := map[], lost := {}, requests := multiset{});
    DownKeepsBasic(s);
    if InDispatch(s) {
      var id := s.ticker.current.value.task.id;
      DispatchedTaskKnown(s);
      NoteKeepsBasic(down, id, s.taskLog[id].(aborted := s.taskLog[id].aborted + 1));
    }
  }

  lemma DispatchedTaskKnown(s: State)
    requires Basic(s) && InDispatch(s)
    ensures KnownTask(s.taskLog, s.ticker.current.value.task)
  {
  }

  lemma DownKeepsBasic(s: State)
    requires Basic(s)
    ensures Basic(s.(phase := Down, ticker := Idle, workers := map[], lost := {}, requests := multiset{}))
  {
    hide RunsLogged, TasksLogged, LogsAgree;
  }

  /** What recovery makes of each row. */
  lemma RecoveredRows(db: Db, retries: map<RunId, RunId>, marked: map<RunId, int>)
    requires RetriesAll(db, retries) && marked.Keys == OrphanIds(db)
    ensures var db' := RecoverRuns(db, retries, marked);
            && db'.tasks == db.tasks && db'.stats == db.stats && db'.runs.Keys == db.runs.Keys + retries.Keys
            && (forall id | id in db.runs :: db'.runs[id] ==
                  if db.runs[id].status == Running then db.runs[id].(status := Orphaned,
                      finishedAt := marked[id]) else db.runs[id])
            && (forall id | id in retries ::
                  && retries[id] in db.runs && db.runs[retries[id]].status == Running
                  && db'.runs[id] == RetryOf(db.runs[retries[id]], id, marked[retries[id]]))
    ensures OrphanIds(RecoverRuns(db, retries, marked)) == {}
  {
  }

  ghost predicate IsRecovery(s: State, retries: map<RunId, RunId>, marked: map<RunId, int>) {
    && s.phase == Down && RetriesAll(s.db, retries) && retries.Keys !! s.runLog.Keys
    && marked.Keys == OrphanIds(s.db)
  }

  lemma RecoverLogs(s: State, retries: map<RunId, RunId>, marked: map<RunId, int>)
    requires Basic(s) && IsRecovery(s, retries, marked)
    ensures var s' := DoRecover(s, retries, marked);
            Grows(s.runLog, s'.runLog, s.taskLog, s'.taskLog) && LogsAgree(s'.runLog, s'.taskLog)
  {
    hide Owned, RequestsLogged, TickerLogged, WorkersLogged, RecoverRuns, RetriesAll, RunMatches;
    RecoveredRows(s.db, retries, marked);
    var s' := DoRecover(s, retries, marked);
    forall id | id in retries ensures s'.runLog[id].task in s.taskLog {
      assert KnownRun(s.runLog, s.db.runs[retries[id]]);
      RunTask(s, s.db.runs[retries[id]]);
    }
  }

  lemma RunTask(s: State, run: Run)
    requires Logged(s) && KnownRun(s.runLog, run)
    ensures run.taskId in s.taskLog
  {
    hide RunsLogged, TasksLogged, RequestsLogged, TickerLogged, WorkersLogged;
  }

  lemma RecoverRunsLogged(s: State, retries: map<RunId, RunId>, marked: map<RunId, int>)
    requires Basic(s) && IsRecovery(s, retries, marked)
    ensures var s' := DoRecover(s, retries, marked); RunsLogged(s'.db.runs, s'.runLog)
  {
    hide Owned, TasksLogged, LogsAgree, RequestsLogged, TickerLogged, WorkersLogged, RecoverRuns, RetriesAll;
    RecoveredRows(s.db, retries, marked);
  }

  lemma RecoverWorkers(s: State, retries: map<RunId, RunId>, marked: map<RunId, int>)
    requires Basic(s) && IsRecovery(s, retries, marked)
    ensures var s' := DoRecover(s, retries, marked);
            WorkersLogged(s'.workers, s'.lost, s'.runLog) && WorkersMatchRows(s'.db.runs, s'.workers, s'.lost)
  {
    hide Basic, WorkersLogged, WorkersMatchRows, RecoverRuns, RetriesAll;
    RecoveredRows(s.db, retries, marked);
    NothingLostWhenDown(s);
    var s' := DoRecover(s, retries, marked);
    forall id | id in retries
      ensures s'.workers[id].run == s'.db.runs[id] && KnownRun(s'.runLog, s'.db.runs[id])
      ensures s'.db.runs[id].id == id && s'.db.runs[id].status == Pending && s'.db.runs[id].trigger == ByRetry
    {
    }
    NewWorkersLogged(s', retries);
    NewWorkersMatchRows(s', retries);
  }

  lemma NothingLostWhenDown(s: State)
    requires Basic(s) && s.phase == Down
    ensures s.lost == {} && s.workers == map[]
  {
    hide Logged, WorkersMatchRows, RunningOwned, DispatchOwned;
  }

  lemma NewWorkersMatchRows(s: State, retries: map<RunId, RunId>)
    requires s.lost == {} && s.workers.Keys == retries.Keys
    requires forall id | id in retries ::
               id in s.db.runs && s.workers[id].run == s.db.runs[id]
               && s.db.runs[id].status == Pending && s.db.runs[id].trigger == ByRetry
    ensures WorkersMatchRows(s.db.runs, s.workers, s.lost)
  {
  }

  lemma NewWorkersLogged(s: State, retries: map<RunId, RunId>)
    requires s.lost == {} && s.workers.Keys == retries.Keys
    requires forall id | id in retries :: s.workers[id].run.id == id && KnownRun(s.runLog, s.workers[id].run)
    ensures WorkersLogged(s.workers, s.lost, s.runLog)
  {
  }

  lemma RecoverPhase(s: State, retries: map<RunId, RunId>, marked: map<RunId, int>)
    requires Basic(s) && IsRecovery(s, retries, marked)
    ensures var s' := DoRecover(s, retries, marked); DispatchOwned(s'.ticker, s'.workers) && PhaseOk(s')
  {
    hide RunsLogged, TasksLogged, LogsAgree, RequestsLogged, TickerLogged, WorkersLogged, WorkersMatchRows;
    hide RecoverRuns, RetriesAll, OrphanIds;
    RecoveredRows(s.db, retries, marked);
  }

  lemma RecoverKeepsBasic(s: State, retries: map<RunId, RunId>, marked: map<RunId, int>)
    requires Basic(s) && IsRecovery(s, retries, marked)
    ensures Basic(DoRecover(s, retries, marked))
  {
    hide RunsLogged, TasksLogged, LogsAgree, RequestsLogged, TickerLogged, WorkersLogged, Grows;
    hide WorkersMatchRows, DispatchOwned, RecoverRuns, RetriesAll;
    var s' := DoRecover(s, retries, marked);
    RecoverLogs(s, retries, marked);
    RecoverRunsLogged(s, retries, marked);
    RecoverWorkers(s, retries, marked);
    RecoverPhase(s, retries, marked);
    GrowthKeepsLogged(s, s'.runLog, s'.taskLog);
    TasksUntouched(s, retries, marked);
    assert OrphanIds(s'.db) == {};
    assert forall id | id in s'.db.runs && s'.db.runs[id].status == Running :: id in OrphanIds(s'.db);
  }

  lemma TasksUntouched(s: State, retries: map<RunId, RunId>, marked: map<RunId, int>)
    requires IsRecovery(s, retries, marked)
    ensures DoRecover(s, retries, marked).db.tasks == s.db.tasks
  {
  }

  lemma RecoverDoneKeepsBasic(s: State)
    requires Basic(s) && s.phase == Recovering
    ensures Basic(s.(phase := Up))
  {
    hide RunsLogged, TasksLogged, LogsAgree, RequestsLogged, WorkersLogged, TickerLogged, WorkersMatchRows,
        DispatchOwned;
    assert forall id | id in s.db.runs && s.db.runs[id].status == Running :: id in OrphanIds(s.db);
  }

  lemma {:induction false} InitIsBasic()
    ensures Basic(Init)
  {
  }

  predicate TickerEvent(e: Event) {
    e.TickBegin? || e.DispatchCreate? || e.DispatchSkip? || e.DispatchAdvance? || e.DispatchAbort? || e.TickEnd?
  }

  predicate RequestEvent(e: Event) {
    e.ReadTrigger? || e.ReadRetry? || e.WriteTrigger? || e.WriteRetry? || e.DropRequest?
  }

  lemma TickerStepKeepsBasic(s: State, e: Event)
    requires Basic(s) && Allowed(s, e) && TickerEvent(e)
    ensures Basic(Apply(s, e))
  {
    hide Basic, NextDue, IsDueList, DoDispatchCreate, DoDispatchAdvance, DoDispatchAbort;
    match e
    case TickBegin(now, due) => TickBeginKeepsBasic(s, now, due);
    case DispatchCreate(id) => DispatchCreateKeepsBasic(s, id);
    case DispatchSkip => SkipKeepsBasic(s);
    case DispatchAdvance(at) => DispatchAdvanceKeepsBasic(s, at);
    case DispatchAbort => DispatchAbortKeepsBasic(s);
    case TickEnd => TickEndKeepsBasic(s);
  }

  lemma RequestStepKeepsBasic(s: State, e: Event)
    requires Basic(s) && Allowed(s, e) && RequestEvent(e)
    ensures Basic(Apply(s, e))
  {
    hide Basic, Create, RequestLogged;
    match e
    case ReadTrigger(task) =>
      ReadsAreLogged(s, task, 0);
      RequestsKeepBasic(s, Apply(s, e).requests);
    case ReadRetry(run) =>
      ReadsAreLogged(s, 0, run);
      RequestsKeepBasic(s, Apply(s, e).requests);
    case WriteTrigger(request, id, at) => WriteKeepsBasic(s, request, NewRun(id, request.task.id, ByHand, at), None);
    case WriteRetry(request, id, at) => WriteKeepsBasic(s, request, RetryOf(request.run, id, at), Some(request.run.id));
    case DropRequest(request) =>
      RequestsWhenUp(s, request);
      RequestsKeepBasic(s, Apply(s, e).requests);
  }

  predicate ProcessEvent(e: Event) {
    e.Finish? || e.WorkerError? || e.Crash? || e.Recover? || e.RecoverDone?
  }

  lemma ProcessStepKeepsBasic(s: State, e: Event)
    requires Basic(s) && Allowed(s, e) && ProcessEvent(e)
    ensures Basic(Apply(s, e))
  {
    hide Basic, RetriesAll, DoFinish, DoWorkerError, DoCrash, DoRecover;
    match e
    case Finish(id, ok, at) => FinishKeepsBasic(s, id, ok, at);
    case WorkerError(id) => WorkerErrorKeepsBasic(s, id);
    case Crash => CrashKeepsBasic(s);
    case Recover(retries, marked) => RecoverKeepsBasic(s, retries, marked);
    case RecoverDone => RecoverDoneKeepsBasic(s);
  }

  lemma RowStepKeepsBasic(s: State, e: Event)
    requires Basic(s) && Allowed(s, e) && !TickerEvent(e) && !RequestEvent(e) && !ProcessEvent(e)
    ensures Basic(Apply(s, e))
  {
    hide Basic, FirstDue, DeleteTask, DeleteRun;
    match e
    case Wait(until) => WaitKeepsBasic(s, until);
    case ScheduleNew(task) => ScheduleNewKeepsBasic(s, task);
    case Pause(task, paused, at) => TaskFlagsKeepBasic(s, SetPaused(s.db, task, paused, at).tasks);
    case Enable(task, enabled, at) => TaskFlagsKeepBasic(s, SetEnabled(s.db, task, enabled, at).tasks);
    case RemoveTask(task) => RemoveTaskKeepsBasic(s, task);
    case RemoveRun(run) => RemoveRunKeepsBasic(s, run);
  }

  /** Every event keeps the invariant. */
  lemma StepKeepsBasic(s: State, e: Event)
    requires Basic(s) && Allowed(s, e)
    ensures Basic(Apply(s, e))
  {
    hide Basic, Allowed, Apply;
    if TickerEvent(e) {
      TickerStepKeepsBasic(s, e);
    } else if RequestEvent(e) {
      RequestStepKeepsBasic(s, e);
    } else if ProcessEvent(e) {
      ProcessStepKeepsBasic(s, e);
    } else {
      RowStepKeepsBasic(s, e);
    }
  }

  lemma WaitKeepsBasic(s: State, until: int)
    requires Basic(s)
    ensures Basic(s.(clock := until))
  {
  }

  lemma FinishKeepsBasic(s: State, id: RunId, ok: bool, at: int)
    requires Basic(s) && id in s.workers
    ensures Basic(DoFinish(s, id, ok, at))
  {
    hide Logged, Owned, DoFinish;
    FinishKeepsLogged(s, id, ok, at);
    FinishKeepsOwned(s, id, ok, at);
  }

  lemma RemoveRunKeepsBasic(s: State, id: RunId)
    requires Basic(s) && s.phase == Up
    ensures Basic(s.(db := DeleteRun(s.db, id), deleted := true))
  {
    hide Basic;
    RemovalKeepsBasic(s, DeleteRun(s.db, id).runs);
  }

  /** The invariant holds in every reachable state. */
  lemma {:induction false} AlwaysBasic(s: State, es: seq<Event>)
    requires Basic(s) && Possible(s, es)
    ensures Basic(After(s, es))
    decreases |es|
  {
    hide Basic, Allowed, Apply;
    if es != [] {
      StepKeepsBasic(s, es[0]);
      AlwaysBasic(Apply(s, es[0]), es[1..]);
    }
  }

  lemma RowsAreLogged(s: State)
    requires Basic(s)
    ensures forall id | id in s.db.runs :: id in s.runLog
  {
    hide Owned, TasksLogged, LogsAgree, RequestsLogged, TickerLogged, WorkersLogged;
  }

  lemma TasksAreLogged(s: State)
    requires Basic(s)
    ensures forall id | id in s.db.tasks :: id in s.taskLog
  {
    hide Owned, RunsLogged, LogsAgree, RequestsLogged, TickerLogged, WorkersLogged;
  }

  // ---------- what the events other than an outcome and a recovery leave alone ----------

  /** Rows stay as they are or are deleted, new rows have new identifiers and are not terminal, the log of runs grows,
      counters stay, and a new worker belongs to a new row. */
  ghost predicate QuietStep(s: State, s': State) {
    && s'.db.stats == s.db.stats && (s.deleted ==> s'.deleted)
    && (forall id | id in s'.db.runs ::
          if id in s.runLog then id in s.db.runs && s'.db.runs[id] == s.db.runs[id]
          else !Terminal(s'.db.runs[id].status))
    && (!s'.deleted ==> forall id | id in s.db.runs :: id in s'.db.runs)
    && (forall id | id in s.runLog :: id in s'.runLog && s'.runLog[id] == s.runLog[id])
    && (forall id | id in s'.workers :: id in s.workers || (id !in s.runLog && id in s'.db.runs))
  }

  lemma CreateIsQuiet(s: State, run: Run, parent: Option<RunId>, owner: Owner)
    requires (forall id | id in s.db.runs :: id in s.runLog) && run.id !in s.runLog && !Terminal(run.status)
    ensures QuietStep(s, Create(s, run, parent, owner))
  {
  }

  lemma TickerIsQuiet(s: State, e: Event)
    requires (forall id | id in s.db.runs :: id in s.runLog) && Allowed(s, e) && TickerEvent(e)
    ensures QuietStep(s, Apply(s, e))
  {
    hide IsDueList, NextDue, CountAbort, Create;
    if e.DispatchCreate? {
      CreateIsQuiet(s, NewRun(e.id, s.ticker.queue[0].id, BySchedule, s.ticker.now), None, Ticking);
    }
  }

  lemma SameTablesAreQuiet(s: State, s': State)
    requires (forall id | id in s.db.runs :: id in s.runLog) && s'.db == s.db && s'.runLog == s.runLog
    requires s'.deleted == s.deleted && s'.workers.Keys <= s.workers.Keys
    ensures QuietStep(s, s')
  {
  }

  lemma CreateForRequest(s: State, requests: multiset<Request>, run: Run, parent: Option<RunId>)
    requires (forall id | id in s.db.runs :: id in s.runLog) && run.id !in s.runLog && !Terminal(run.status)
    ensures QuietStep(s, Create(s.(requests := requests), run, parent, Manual))
  {
    hide Create;
    CreateIsQuiet(s.(requests := requests), run, parent, Manual);
  }

  lemma RequestIsQuiet(s: State, e: Event)
    requires (forall id | id in s.db.runs :: id in s.runLog) && Allowed(s, e) && RequestEvent(e)
    ensures QuietStep(s, Apply(s, e))
  {
    hide Create, QuietStep;
    match e
    case ReadTrigger(task) => SameTablesAreQuiet(s, Apply(s, e));
    case ReadRetry(run) => SameTablesAreQuiet(s, Apply(s, e));
    case DropRequest(request) => SameTablesAreQuiet(s, Apply(s, e));
    case WriteTrigger(request, id, at) =>
      CreateForRequest(s, s.requests - multiset{request}, NewRun(id, request.task.id, ByHand, at), None);
    case WriteRetry(request, id, at) =>
      CreateForRequest(s, s.requests - multiset{request}, RetryOf(request.run, id, at), Some(request.run.id));
  }

  lemma TablesAreQuiet(s: State, db: Db)
    requires (forall id | id in s.db.runs :: id in s.runLog) && db.stats == s.db.stats
    requires forall id | id in db.runs :: id in s.db.runs && db.runs[id] == s.db.runs[id]
    ensures QuietStep(s, s.(db := db, deleted := true))
    ensures db.runs == s.db.runs ==> QuietStep(s, s.(db := db))
  {
  }

  lemma RowEventIsQuiet(s: State, e: Event)
    requires (forall id | id in s.db.runs :: id in s.runLog) && Allowed(s, e)
    requires !TickerEvent(e) && !RequestEvent(e) && !ProcessEvent(e)
    ensures QuietStep(s, Apply(s, e))
  {
    hide FirstDue, ValidTask, QuietStep;
    match e
    case Wait(until) => SameTablesAreQuiet(s, Apply(s, e));
    case ScheduleNew(task) =>
      TablesAreQuiet(s, Apply(s, e).db);
      SameButTaskLog(s, Apply(s, e));
    case Pause(task, paused, at) => TablesAreQuiet(s, Apply(s, e).db);
    case Enable(task, enabled, at) => TablesAreQuiet(s, Apply(s, e).db);
    case RemoveTask(task) => TablesAreQuiet(s, Apply(s, e).db);
    case RemoveRun(run) => TablesAreQuiet(s, Apply(s, e).db);
  }

  lemma SameButTaskLog(s: State, s': State)
    requires QuietStep(s, s.(db := s'.db)) && s' == s.(db := s'.db, taskLog := s'.taskLog)
    ensures QuietStep(s, s')
  {
  }

  lemma ProcessIsQuiet(s: State, e: Event)
    requires (forall id | id in s.db.runs :: id in s.runLog) && Allowed(s, e)
    requires e.WorkerError? || e.Crash? || e.RecoverDone?
    ensures QuietStep(s, Apply(s, e))
  {
    hide QuietStep, CountAbort;
    SameTablesAreQuiet(s, Apply(s, e));
  }

  lemma EventIsQuiet(s: State, e: Event)
    requires Basic(s) && Allowed(s, e) && !e.Finish? && !e.Recover?
    ensures QuietStep(s, Apply(s, e))
  {
    hide Basic, Allowed, Apply, QuietStep;
    RowsAreLogged(s);
    if TickerEvent(e) {
      TickerIsQuiet(s, e);
    } else if RequestEvent(e) {
      RequestIsQuiet(s, e);
    } else if ProcessEvent(e) {
      ProcessIsQuiet(s, e);
    } else {
      RowEventIsQuiet(s, e);
    }
  }
}

/** How often the schedule fires: every schedule-triggered run is paid for by a due time or by an aborted dispatch. */
module EngineSchedule {
  import opened Prelude
  import opened Model
  import opened Tables
  import opened Engine
  import opened EngineInvariants

  ghost function ScheduleRuns(runLog: map<RunId, RunLog>, task: TaskId): set<RunId> {
    set id | id in runLog && runLog[id].task == task && runLog[id].trigger == BySchedule
  }

  predicate InFlight(ticker: Ticker, task: TaskId) {
    ticker.Tick? && ticker.current.Some? && ticker.current.value.task.id == task
  }

  /** The due times a task can have: for cron, matching minutes after its creation; otherwise only the first one. */
  ghost predicate PossibleDue(log: TaskLog, due: int) {
    if log.created.specType == SpecCron then log.created.createdAt < due && IsCronTime(log.created.cronExpr, due)
    else due == log.created.nextRunAt
  }

  /** The account of one task. Each dispatched due time stands for one run, and for one more per abort; the current due
      time has been counted on both sides when it was dispatched, the dispatch is over, and it has not advanced. */
  ghost predicate Balanced(runs: nat, log: TaskLog, inFlight: bool, clock: int) {
    && runs + (if log.nextDue in log.dispatched && !inFlight then 1 else 0) == |log.dispatched| + log.aborted
    && (inFlight ==> log.nextDue in log.dispatched)
    && (forall v | v in log.dispatched ::
          0 < v <= clock && PossibleDue(log, v) && (v <= log.nextDue || log.nextDue == 0))
    && (log.nextDue != 0 ==> PossibleDue(log, log.nextDue))
  }

  ghost predicate AccountsOk(runLog: map<RunId, RunLog>, taskLog: map<TaskId, TaskLog>, ticker: Ticker, clock: int) {
    forall t | t in taskLog :: Balanced(|ScheduleRuns(runLog, t)|, taskLog[t], InFlight(ticker, t), clock)
  }

  /** The tasks a Tick still has to dispatch are due at their current due time, and are dispatched once each. */
  ghost predicate QueueOk(taskLog: map<TaskId, TaskLog>, ticker: Ticker, clock: int) {
    ticker.Tick? ==>
      && 0 <= ticker.now <= clock
      && (forall t | t in ticker.queue ::
            t.id in taskLog && t.nextRunAt == taskLog[t.id].nextDue && 0 < t.nextRunAt <= ticker.now)
      && (forall i, j | 0 <= i < j < |ticker.queue| :: ticker.queue[i].id != ticker.queue[j].id)
      && (ticker.current.Some? ==>
            && ticker.current.value.task.id in taskLog
            && 0 < taskLog[ticker.current.value.task.id].nextDue <= ticker.now
            && forall t | t in ticker.queue :: t.id != ticker.current.value.task.id)
  }

  ghost predicate ScheduleOk(s: State) {
    && 0 <= s.clock
    && AccountsOk(s.runLog, s.taskLog, s.ticker, s.clock)
    && QueueOk(s.taskLog, s.ticker, s.clock)
  }

  // ---------- the moves of one account ----------

  lemma LaterBalance(runs: nat, log: TaskLog, inFlight: bool, clock: int, clock': int)
    requires Balanced(runs, log, inFlight, clock) && clock <= clock'
    ensures Balanced(runs, log, inFlight, clock')
  {
    hide PossibleDue;
  }

  lemma DispatchBalance(runs: nat, log: TaskLog, clock: int)
    requires Balanced(runs, log, false, clock) && 0 < log.nextDue <= clock
    ensures Balanced(runs + 1, log.(dispatched := log.dispatched + {log.nextDue}), true, clock)
  {
    hide IsCronTime;
    if log.nextDue in log.dispatched {
      assert log.dispatched + {log.nextDue} == log.dispatched;
    }
  }

  lemma AbortBalance(runs: nat, log: TaskLog, clock: int)
    requires Balanced(runs, log, true, clock)
    ensures Balanced(runs, log.(aborted := log.aborted + 1), false, clock)
  {
    hide IsCronTime;
  }

  lemma AdvanceBalance(runs: nat, log: TaskLog, clock: int, next: int)
    requires Balanced(runs, log, true, clock) && log.nextDue != 0
    requires next == 0 || (log.nextDue < next && PossibleDue(log, next))
    ensures Balanced(runs, log.(nextDue := next), false, clock)
  {
    hide IsCronTime;
  }

  // ---------- schedule-triggered runs ----------

  lemma OtherRunsDoNotCount(runLog: map<RunId, RunLog>, runLog': map<RunId, RunLog>, t: TaskId)
    requires forall id | id in runLog :: id in runLog' && runLog'[id] == runLog[id]
    requires forall id | id in runLog' && id !in runLog :: runLog'[id].trigger != BySchedule || runLog'[id].task != t
    ensures ScheduleRuns(runLog', t) == ScheduleRuns(runLog, t)
  {
  }

  lemma OneMoreScheduleRun(runLog: map<RunId, RunLog>, id: RunId, log: RunLog)
    requires id !in runLog && log.trigger == BySchedule
    ensures |ScheduleRuns(runLog[id := log], log.task)| == |ScheduleRuns(runLog, log.task)| + 1
  {
    assert ScheduleRuns(runLog[id := log], log.task) == ScheduleRuns(runLog, log.task) + {id};
  }

  // ---------- each kind of event ----------

  /** Events that create no schedule-triggered run and leave the ticker's dispatch alone. */
  lemma AccountsStay(s: State, s': State)
    requires ScheduleOk(s) && s'.taskLog == s.taskLog && s.clock <= s'.clock
    requires forall t | t in s.taskLog :: InFlight(s'.ticker, t) == InFlight(s.ticker, t)
    requires forall id | id in s.runLog :: id in s'.runLog && s'.runLog[id] == s.runLog[id]
    requires forall id | id in s'.runLog && id !in s.runLog :: s'.runLog[id].trigger != BySchedule
    ensures AccountsOk(s'.runLog, s'.taskLog, s'.ticker, s'.clock)
  {
    hide Balanced, InFlight, QueueOk, ScheduleRuns;
    forall t | t in s'.taskLog
      ensures Balanced(|ScheduleRuns(s'.runLog, t)|, s'.taskLog[t], InFlight(s'.ticker, t), s'.clock)
    {
      OtherRunsDoNotCount(s.runLog, s'.runLog, t);
      LaterBalance(|ScheduleRuns(s.runLog, t)|, s.taskLog[t], InFlight(s.ticker, t), s.clock, s'.clock);
    }
  }

  /** An event that changes the account of one task only. */
  lemma OneAccount(s: State, s': State, task: TaskId)
    requires ScheduleOk(s) && s'.clock == s.clock && s'.taskLog.Keys == s.taskLog.Keys && task in s.taskLog
    requires forall t | t in s.taskLog && t != task ::
               s'.taskLog[t] == s.taskLog[t] && InFlight(s'.ticker, t) == InFlight(s.ticker, t)
    requires forall id | id in s.runLog :: id in s'.runLog && s'.runLog[id] == s.runLog[id]
    requires forall id | id in s'.runLog && id !in s.runLog :: s'.runLog[id].task == task
    requires Balanced(|ScheduleRuns(s'.runLog, task)|, s'.taskLog[task], InFlight(s'.ticker, task), s'.clock)
    ensures AccountsOk(s'.runLog, s'.taskLog, s'.ticker, s'.clock)
  {
    hide Balanced, InFlight, QueueOk, ScheduleRuns;
    forall t | t in s'.taskLog
      ensures Balanced(|ScheduleRuns(s'.runLog, t)|, s'.taskLog[t], InFlight(s'.ticker, t), s'.clock)
    {
      if t != task {
        OtherRunsDoNotCount(s.runLog, s'.runLog, t);
      }
    }
  }

  lemma BalanceOf(s: State, t: TaskId)
    requires ScheduleOk(s) && t in s.taskLog
    ensures Balanced(|ScheduleRuns(s.runLog, t)|, s.taskLog[t], InFlight(s.ticker, t), s.clock)
  {
  }

  lemma DispatchCreateKeepsSchedule(s: State, id: RunId)
    requires ScheduleOk(s) && s.ticker.Tick? && s.ticker.current == None && s.ticker.queue != [] && id !in s.runLog
    ensures ScheduleOk(DoDispatchCreate(s, id))
  {
    hide Balanced, ScheduleRuns, CreateRun;
    var s' := DoDispatchCreate(s, id);
    var task := s.ticker.queue[0];
    assert task in s.ticker.queue;
    BalanceOf(s, task.id);
    DispatchBalance(|ScheduleRuns(s.runLog, task.id)|, s.taskLog[task.id], s.clock);
    OneMoreScheduleRun(s.runLog, id, LogOf(NewRun(id, task.id, BySchedule, s.ticker.now), None));
    hide AccountsOk;
    DispatchCreateQueue(s, id);
    OneAccount(s, s', task.id);
  }

  lemma DispatchCreateQueue(s: State, id: RunId)
    requires ScheduleOk(s) && s.ticker.Tick? && s.ticker.current == None && s.ticker.queue != []
    ensures QueueOk(DoDispatchCreate(s, id).taskLog, DoDispatchCreate(s, id).ticker, s.clock)
  {
    hide AccountsOk, CreateRun;
    assert s.ticker.queue[0] in s.ticker.queue;
  }

  lemma NextDueIsLater(log: TaskLog, task: Task, at: int)
    requires TaskMatches(task, log) && log.nextDue <= at && PossibleDue(log, log.nextDue)
    ensures NextDue(task, at) == 0 || (log.nextDue < NextDue(task, at) && PossibleDue(log, NextDue(task, at)))
  {
    hide NextCron, IsCronTime;
    NextCronIsLater(task, at);
    NonCronHasNone(task, at);
  }

  lemma NonCronHasNone(task: Task, at: int)
    ensures task.specType != SpecCron ==> NextCron(task, at) == None
  {
  }

  lemma DispatchAdvanceKeepsSchedule(s: State, at: int)
    requires Basic(s) && ScheduleOk(s) && InDispatch(s) && s.ticker.now <= at
    ensures ScheduleOk(DoDispatchAdvance(s, at))
  {
    hide Balanced, PossibleDue, ScheduleRuns, SetNextRun, NextDue, Basic, TaskMatches;
    var task := s.ticker.current.value.task;
    DispatchedTaskKnown(s);
    BalanceOf(s, task.id);
    DueIsPossible(|ScheduleRuns(s.runLog, task.id)|, s.taskLog[task.id], true, s.clock);
    NextDueIsLater(s.taskLog[task.id], task, at);
    AdvanceBalance(|ScheduleRuns(s.runLog, task.id)|, s.taskLog[task.id], s.clock, NextDue(task, at));
    OneAccount(s, DoDispatchAdvance(s, at), task.id);
  }

  lemma DueIsPossible(runs: nat, log: TaskLog, inFlight: bool, clock: int)
    requires Balanced(runs, log, inFlight, clock) && log.nextDue != 0
    ensures PossibleDue(log, log.nextDue)
  {
  }

  /** A dispatch that ends without advancing the schedule, for whatever reason. */
  lemma AbortKeepsSchedule(s: State, s': State)
    requires ScheduleOk(s) && s'.taskLog == CountAbort(s) && s'.runLog == s.runLog && s'.clock == s.clock
    requires s.ticker.Tick? && (s'.ticker == Idle || s'.ticker == s.ticker.(current := None))
    ensures ScheduleOk(s')
  {
    hide Balanced, ScheduleRuns;
    if InDispatch(s) {
      var task := s.ticker.current.value.task.id;
      BalanceOf(s, task);
      AbortBalance(|ScheduleRuns(s.runLog, task)|, s.taskLog[task], s.clock);
      OneAccount(s, s', task);
    } else {
      AccountsStay(s, s');
    }
  }

  lemma CrashKeepsSchedule(s: State)
    requires ScheduleOk(s)
    ensures ScheduleOk(DoCrash(s))
  {
    hide AccountsOk, QueueOk;
    if s.ticker.Tick? {
      hide ScheduleOk;
      AbortKeepsSchedule(s, DoCrash(s));
    }
  }

  lemma QueueStays(s: State, s': State)
    requires ScheduleOk(s) && s'.taskLog == s.taskLog && s.clock <= s'.clock
    requires s'.ticker == s.ticker || s'.ticker == Idle
             || (s.ticker.Tick? && s.ticker.current.Some?
                 && s'.ticker == s.ticker.(current := Some(s.ticker.current.value.(executed := true))))
             || (s.ticker.Tick? && s.ticker.queue != [] && s'.ticker == s.ticker.(queue := s.ticker.queue[1..]))
    ensures QueueOk(s'.taskLog, s'.ticker, s'.clock)
  {
    hide AccountsOk;
  }

  /** The events that only move other parts of the state. */
  lemma QuietKeepsSchedule(s: State, s': State)
    requires ScheduleOk(s) && s'.taskLog == s.taskLog && s.clock <= s'.clock
    requires s'.ticker == s.ticker
             || (s.ticker.Tick? && s.ticker.current == None && s'.ticker == Idle)
             || (s.ticker.Tick? && s.ticker.current.Some?
                 && s'.ticker == s.ticker.(current := Some(s.ticker.current.value.(executed := true))))
             || (s.ticker.Tick? && s.ticker.queue != [] && s'.ticker == s.ticker.(queue := s.ticker.queue[1..]))
    requires forall id | id in s.runLog :: id in s'.runLog && s'.runLog[id] == s.runLog[id]
    requires forall id | id in s'.runLog && id !in s.runLog :: s'.runLog[id].trigger != BySchedule
    ensures ScheduleOk(s')
  {
    hide AccountsOk, QueueOk;
    AccountsStay(s, s');
    QueueStays(s, s');
  }

  lemma WorkerErrorKeepsSchedule(s: State, id: RunId)
    requires ScheduleOk(s) && id in s.workers
    ensures ScheduleOk(DoWorkerError(s, id))
  {
    hide ScheduleOk;
    if s.workers[id].owner == Ticking && s.ticker.Tick? {
      AbortKeepsSchedule(s, DoWorkerError(s, id));
    } else {
      QuietKeepsSchedule(s, DoWorkerError(s, id));
    }
  }

  lemma TickBeginKeepsSchedule(s: State, now: int, due: seq<Task>)
    requires Basic(s) && ScheduleOk(s) && s.ticker == Idle && 0 <= now <= s.clock && IsDueList(s.db, now, due)
    ensures ScheduleOk(s.(ticker := Tick(now, due, None)))
  {
    hide Balanced, ScheduleRuns, Owned, RunsLogged, LogsAgree, RequestsLogged, TickerLogged, WorkersLogged, TaskMatches;
    AccountsStay(s, s.(ticker := Tick(now, due, None)));
    forall t | t in due ensures t.id in s.taskLog && t.nextRunAt == s.taskLog[t.id].nextDue && 0 < t.nextRunAt <= now {
      var i :| 0 <= i < |due| && due[i] == t;
      assert due[i].id in DueIds(s.db, now);
    }
  }

  lemma ScheduleNewKeepsSchedule(s: State, task: Task)
    requires Basic(s) && ScheduleOk(s) && task.id !in s.taskLog && FirstDue(task, task.createdAt)
    ensures var log := TaskLog(task, task.nextRunAt, {}, 0);
            && AccountsOk(s.runLog, s.taskLog[task.id := log], s.ticker, s.clock)
            && QueueOk(s.taskLog[task.id := log], s.ticker, s.clock)
  {
    hide ScheduleRuns;
    var log := TaskLog(task, task.nextRunAt, {}, 0);
    NewTaskHasNoRuns(s, task.id);
    FirstDueIsPossible(task);
    hide NextCron, IsCronTime, FirstDue, PossibleDue;
    assert !InFlight(s.ticker, task.id);
  }

  lemma NewTaskHasNoRuns(s: State, task: TaskId)
    requires Basic(s) && task !in s.taskLog
    ensures ScheduleRuns(s.runLog, task) == {}
  {
    hide Owned, RunsLogged, TasksLogged, RequestsLogged, TickerLogged, WorkersLogged;
  }

  lemma FirstDueIsPossible(task: Task)
    requires FirstDue(task, task.createdAt)
    ensures PossibleDue(TaskLog(task, task.nextRunAt, {}, 0), task.nextRunAt)
  {
    hide NextCron, IsCronTime;
    NextCronIsLater(task, task.createdAt);
  }

  lemma TickerStepKeepsSchedule(s: State, e: Event)
    requires Basic(s) && ScheduleOk(s) && Allowed(s, e) && TickerEvent(e)
    ensures ScheduleOk(Apply(s, e))
  {
    hide Basic, ScheduleOk, NextDue, IsDueList, DoDispatchCreate, DoDispatchAdvance, CountAbort;
    match e
    case TickBegin(now, due) => TickBeginKeepsSchedule(s, now, due);
    case DispatchCreate(id) => DispatchCreateKeepsSchedule(s, id);
    case DispatchSkip => QuietKeepsSchedule(s, Apply(s, e));
    case DispatchAdvance(at) => DispatchAdvanceKeepsSchedule(s, at);
    case DispatchAbort => AbortKeepsSchedule(s, Apply(s, e));
    case TickEnd => QuietKeepsSchedule(s, Apply(s, e));
  }

  lemma CreateKeepsSchedule(s: State, run: Run, parent: Option<RunId>, owner: Owner)
    requires ScheduleOk(s) && run.id !in s.runLog && run.trigger != BySchedule
    ensures ScheduleOk(Create(s, run, parent, owner))
  {
    hide ScheduleOk, CreateRun;
    QuietKeepsSchedule(s, Create(s, run, parent, owner));
  }

  lemma RequestsKeepSchedule(s: State, requests: multiset<Request>)
    requires ScheduleOk(s)
    ensures ScheduleOk(s.(requests := requests))
  {
    hide ScheduleOk;
    QuietKeepsSchedule(s, s.(requests := requests));
  }

  lemma RequestStepKeepsSchedule(s: State, e: Event)
    requires ScheduleOk(s) && Allowed(s, e) && RequestEvent(e)
    ensures ScheduleOk(Apply(s, e))
  {
    hide ScheduleOk, Create;
    match e
    case ReadTrigger(task) => RequestsKeepSchedule(s, Apply(s, e).requests);
    case ReadRetry(run) => RequestsKeepSchedule(s, Apply(s, e).requests);
    case DropRequest(request) => RequestsKeepSchedule(s, Apply(s, e).requests);
    case WriteTrigger(request, id, at) =>
      var s1 := s.(requests := s.requests - multiset{request});
      RequestsKeepSchedule(s, s1.requests);
      CreateKeepsSchedule(s1, NewRun(id, request.task.id, ByHand, at), None, Manual);
    case WriteRetry(request, id, at) =>
      var s1 := s.(requests := s.requests - multiset{request});
      RequestsKeepSchedule(s, s1.requests);
      CreateKeepsSchedule(s1, RetryOf(request.run, id, at), Some(request.run.id), Manual);
  }

  lemma ProcessStepKeepsSchedule(s: State, e: Event)
    requires ScheduleOk(s) && Allowed(s, e) && ProcessEvent(e)
    ensures ScheduleOk(Apply(s, e))
  {
    hide ScheduleOk, RetriesAll, DoWorkerError, DoCrash, DoRecover, FinishRun;
    match e
    case Finish(id, ok, at) => QuietKeepsSchedule(s, Apply(s, e));
    case WorkerError(id) => WorkerErrorKeepsSchedule(s, id);
    case Crash => CrashKeepsSchedule(s);
    case Recover(retries, marked) => RecoverKeepsSchedule(s, retries, marked);
    case RecoverDone => QuietKeepsSchedule(s, Apply(s, e));
  }

  lemma RecoverKeepsSchedule(s: State, retries: map<RunId, RunId>, marked: map<RunId, int>)
    requires ScheduleOk(s) && IsRecovery(s, retries, marked)
    ensures ScheduleOk(DoRecover(s, retries, marked))
  {
    hide ScheduleOk, RecoverRuns, RetriesAll;
    RecoveredRows(s.db, retries, marked);
    QuietKeepsSchedule(s, DoRecover(s, retries, marked));
  }

  lemma RowStepKeepsSchedule(s: State, e: Event)
    requires Basic(s) && ScheduleOk(s) && Allowed(s, e) && !TickerEvent(e) && !RequestEvent(e) && !ProcessEvent(e)
    ensures ScheduleOk(Apply(s, e))
  {
    hide Basic, AccountsOk, QueueOk, FirstDue, DeleteTask, DeleteRun, SetPaused, SetEnabled, ValidTask;
    if e.ScheduleNew? {
      ScheduleNewKeepsSchedule(s, e.created);
    } else {
      QuietKeepsSchedule(s, Apply(s, e));
    }
  }

  /** Every event keeps the accounts balanced. */
  lemma StepKeepsSchedule(s: State, e: Event)
    requires Basic(s) && ScheduleOk(s) && Allowed(s, e)
    ensures ScheduleOk(Apply(s, e))
  {
    hide Basic, ScheduleOk, Allowed, Apply;
    if TickerEvent(e) {
      TickerStepKeepsSchedule(s, e);
    } else if RequestEvent(e) {
      RequestStepKeepsSchedule(s, e);
    } else if ProcessEvent(e) {
      ProcessStepKeepsSchedule(s, e);
    } else {
      RowStepKeepsSchedule(s, e);
    }
  }

  lemma {:induction false} AlwaysSchedule(s: State, es: seq<Event>)
    requires Basic(s) && ScheduleOk(s) && Possible(s, es)
    ensures ScheduleOk(After(s, es))
    decreases |es|
  {
    hide Basic, ScheduleOk, Allowed, Apply;
    if es != [] {
      StepKeepsBasic(s, es[0]);
      StepKeepsSchedule(s, es[0]);
      AlwaysSchedule(Apply(s, es[0]), es[1..]);
    }
  }

  // ---------- the bounds ----------

  /** The instants after the first and up to the second at which the expression matches. */
  ghost function CronTimes(expr: string, after: int, upTo: int): set<int> {
    set ms | after < ms <= upTo && IsCronTime(expr, ms)
  }

  /** The schedule-triggered runs of a cron task number at most the matching minutes since its creation plus its aborted
      dispatches; those of any other task at most one plus its aborted dispatches. */
  lemma ScheduleRunsBounded(s: State, t: TaskId)
    requires ScheduleOk(s) && t in s.taskLog
    ensures var log, runs := s.taskLog[t], |ScheduleRuns(s.runLog, t)|;
            if log.created.specType == SpecCron then
              runs <= |CronTimes(log.created.cronExpr, log.created.createdAt, s.clock)| + log.aborted
            else runs <= 1 + log.aborted
  {
    hide IsCronTime, ScheduleRuns, AccountsOk, QueueOk;
    BalanceOf(s, t);
    var log := s.taskLog[t];
    forall v | v in log.dispatched ensures v <= s.clock && PossibleDue(log, v) {
    }
    if log.created.specType == SpecCron {
      SubsetSize(log.dispatched, CronTimes(log.created.cronExpr, log.created.createdAt, s.clock));
    } else {
      assert forall v | v in log.dispatched :: v == log.created.nextRunAt;
      SubsetSize(log.dispatched, {log.created.nextRunAt});
    }
  }

  lemma InitIsScheduled()
    ensures ScheduleOk(Init)
  {
  }

  // ---------- tasks that never stop, tasks that are paused ----------

  /** A cron task whose expression has a date in every year always has a next run time. */
  ghost predicate NeverIdle(taskLog: map<TaskId, TaskLog>) {
    forall t | t in taskLog :: KeepsRunning(taskLog[t])
  }

  ghost predicate KeepsRunning(log: TaskLog) {
    log.created.specType == SpecCron && RunsEveryYear(log.created.cronExpr) ==> 0 < log.nextDue
  }

  lemma AdvanceKeepsRunning(log: TaskLog, task: Task, at: int)
    requires TaskMatches(task, log) && 0 <= at
    ensures KeepsRunning(log.(nextDue := NextDue(task, at)))
  {
    hide NextCron, IsCronTime, RunsEveryYear;
    NextCronIsLater(task, at);
  }

  lemma NewTaskKeepsRunning(task: Task)
    requires FirstDue(task, task.createdAt) && 0 <= task.createdAt
    ensures KeepsRunning(TaskLog(task, task.nextRunAt, {}, 0))
  {
    hide NextCron, IsCronTime, RunsEveryYear;
    NextCronIsLater(task, task.createdAt);
  }

  lemma DispatchAdvanceKeepsNeverIdle(s: State, at: int)
    requires Basic(s) && NeverIdle(s.taskLog) && InDispatch(s) && 0 <= at
    ensures NeverIdle(DoDispatchAdvance(s, at).taskLog)
  {
    hide KeepsRunning, NextDue, SetNextRun, Basic;
    DispatchedTaskKnown(s);
    AdvanceKeepsRunning(s.taskLog[s.ticker.current.value.task.id], s.ticker.current.value.task, at);
  }

  lemma NotesKeepNeverIdle(taskLog: map<TaskId, TaskLog>, taskLog': map<TaskId, TaskLog>)
    requires NeverIdle(taskLog) && SameDues(taskLog, taskLog')
    ensures NeverIdle(taskLog')
  {
    hide RunsEveryYear;
    forall t | t in taskLog' ensures KeepsRunning(taskLog'[t]) {
      assert KeepsRunning(taskLog[t]);
    }
  }

  ghost predicate SameDues(taskLog: map<TaskId, TaskLog>, taskLog': map<TaskId, TaskLog>) {
    && taskLog'.Keys == taskLog.Keys
    && forall t | t in taskLog :: taskLog'[t].created == taskLog[t].created && taskLog'[t].nextDue == taskLog[t].nextDue
  }

  lemma TickerOnlyNotes(s: State, e: Event)
    requires Allowed(s, e) && TickerEvent(e) && !e.DispatchAdvance?
    ensures SameDues(s.taskLog, Apply(s, e).taskLog)
  {
    AbortOnlyNotes(s);
    hide IsDueList, CreateRun, CountAbort;
  }

  lemma ProcessOnlyNotes(s: State, e: Event)
    requires Allowed(s, e) && ProcessEvent(e)
    ensures SameDues(s.taskLog, Apply(s, e).taskLog)
  {
    AbortOnlyNotes(s);
    hide RetriesAll, RecoverRuns, FinishRun, CountAbort, SameDues;
  }

  lemma OnlyNotes(s: State, e: Event)
    requires Allowed(s, e) && !e.ScheduleNew? && !e.DispatchAdvance?
    ensures SameDues(s.taskLog, Apply(s, e).taskLog)
  {
    if TickerEvent(e) {
      TickerOnlyNotes(s, e);
    } else if ProcessEvent(e) {
      ProcessOnlyNotes(s, e);
    } else {
      if RequestEvent(e) {
        RequestsKeepTasks(s, e);
      }
      AbortOnlyNotes(s);
      hide SameDues, Create, DeleteTask, DeleteRun, SetPaused, SetEnabled;
    }
  }

  lemma AbortOnlyNotes(s: State)
    ensures SameDues(s.taskLog, s.taskLog) && SameDues(s.taskLog, CountAbort(s))
    ensures forall s1: State | s1.taskLog == s.taskLog && s1.ticker == s.ticker :: CountAbort(s1) == CountAbort(s)
  {
  }

  lemma StepKeepsNeverIdle(s: State, e: Event)
    requires Basic(s) && ScheduleOk(s) && NeverIdle(s.taskLog) && Allowed(s, e)
    ensures NeverIdle(Apply(s, e).taskLog)
  {
    hide Basic, KeepsRunning, FirstDue, DoDispatchAdvance, AccountsOk, ValidTask;
    if e.ScheduleNew? {
      NewTaskKeepsRunning(e.created);
    } else if e.DispatchAdvance? {
      DispatchAdvanceKeepsNeverIdle(s, e.at);
    } else {
      hide Allowed, Apply;
      OnlyNotes(s, e);
      NotesKeepNeverIdle(s.taskLog, Apply(s, e).taskLog);
    }
  }

  lemma {:induction false} AlwaysNeverIdle(s: State, es: seq<Event>)
    requires Basic(s) && ScheduleOk(s) && NeverIdle(s.taskLog) && Possible(s, es)
    ensures NeverIdle(After(s, es).taskLog)
    decreases |es|
  {
    hide Basic, ScheduleOk, NeverIdle, Allowed, Apply;
    if es != [] {
      StepKeepsBasic(s, es[0]);
      StepKeepsSchedule(s, es[0]);
      StepKeepsNeverIdle(s, es[0]);
      AlwaysNeverIdle(Apply(s, es[0]), es[1..]);
    }
  }

  /** The task is paused, disabled, or gone. */
  ghost predicate Stopped(s: State, t: TaskId) {
    t in s.db.tasks ==> !Active(s.db.tasks[t])
  }

  /** Stopped in this state and in every later one of the run. */
  ghost predicate StaysStopped(s: State, es: seq<Event>, t: TaskId)
    requires Possible(s, es)
    decreases |es|
  {
    Stopped(s, t) && (es != [] ==> StaysStopped(Apply(s, es[0]), es[1..], t))
  }

  /** The dispatches of the task that the Tick in progress has still to start. */
  ghost function Waiting(ticker: Ticker, t: TaskId): nat {
    if ticker.Tick? && exists q :: q in ticker.queue && q.id == t then 1 else 0
  }

  lemma StoppedStep(s: State, e: Event, t: TaskId)
    requires Basic(s) && ScheduleOk(s) && Allowed(s, e) && Stopped(s, t)
    ensures |ScheduleRuns(Apply(s, e).runLog, t)| + Waiting(Apply(s, e).ticker, t)
            <= |ScheduleRuns(s.runLog, t)| + Waiting(s.ticker, t)
  {
    if e.DispatchCreate? {
      StoppedDispatch(s, e.id, t);
    } else if e.TickBegin? {
      hide ScheduleRuns, Owned, AccountsOk, RunsLogged, LogsAgree, RequestsLogged, TickerLogged, WorkersLogged,
          TaskMatches;
      StoppedIsNotDue(s, e.now, e.due, t);
    } else {
      NoScheduleRun(s, e, t);
      QueueShrinks(s, e, t);
    }
  }

  lemma StoppedIsNotDue(s: State, now: int, due: seq<Task>, t: TaskId)
    requires Basic(s) && IsDueList(s.db, now, due) && Stopped(s, t)
    ensures forall q | q in due :: q.id != t
  {
    hide Basic;
    forall q | q in due ensures q.id != t {
      var i :| 0 <= i < |due| && due[i] == q;
      assert due[i].id in DueIds(s.db, now);
    }
  }

  lemma StoppedDispatch(s: State, id: RunId, t: TaskId)
    requires ScheduleOk(s) && s.ticker.Tick? && s.ticker.current == None && s.ticker.queue != [] && id !in s.runLog
    ensures |ScheduleRuns(DoDispatchCreate(s, id).runLog, t)| + Waiting(DoDispatchCreate(s, id).ticker, t)
            <= |ScheduleRuns(s.runLog, t)| + Waiting(s.ticker, t)
  {
    hide AccountsOk, CreateRun, ScheduleRuns;
    var task := s.ticker.queue[0];
    var log := LogOf(NewRun(id, task.id, BySchedule, s.ticker.now), None);
    assert task in s.ticker.queue;
    if task.id == t {
      OneMoreScheduleRun(s.runLog, id, log);
      assert Waiting(DoDispatchCreate(s, id).ticker, t) == 0;
    } else {
      OtherRunsDoNotCount(s.runLog, s.runLog[id := log], t);
    }
  }

  lemma NoScheduleRun(s: State, e: Event, t: TaskId)
    requires Allowed(s, e) && !e.DispatchCreate?
    ensures ScheduleRuns(Apply(s, e).runLog, t) == ScheduleRuns(s.runLog, t)
  {
    if e.Recover? {
      RetriesAreNotScheduled(s, e.retries, e.marked, t);
    } else if RequestEvent(e) {
      RequestsAreNotScheduled(s, e, t);
    } else {
      hide IsDueList, NextDue, FirstDue, ValidTask, DoRecover, FinishRun, DeleteTask, SetNextRun, CreateRun,
          ScheduleRuns;
      hide CountAbort, RetriesAll;
    }
  }

  lemma RetriesAreNotScheduled(s: State, retries: map<RunId, RunId>, marked: map<RunId, int>, t: TaskId)
    requires IsRecovery(s, retries, marked)
    ensures ScheduleRuns(DoRecover(s, retries, marked).runLog, t) == ScheduleRuns(s.runLog, t)
  {
    hide RecoverRuns, RetriesAll, ScheduleRuns;
    RecoveredRows(s.db, retries, marked);
    OtherRunsDoNotCount(s.runLog, DoRecover(s, retries, marked).runLog, t);
  }

  lemma CreateIsNotScheduled(s: State, run: Run, parent: Option<RunId>, owner: Owner, t: TaskId)
    requires run.id !in s.runLog && run.trigger != BySchedule
    ensures ScheduleRuns(Create(s, run, parent, owner).runLog, t) == ScheduleRuns(s.runLog, t)
  {
    hide ScheduleRuns;
    OtherRunsDoNotCount(s.runLog, Create(s, run, parent, owner).runLog, t);
  }

  lemma RequestsAreNotScheduled(s: State, e: Event, t: TaskId)
    requires Allowed(s, e) && RequestEvent(e)
    ensures ScheduleRuns(Apply(s, e).runLog, t) == ScheduleRuns(s.runLog, t)
  {
    hide Create, ScheduleRuns;
    match e
    case ReadTrigger(task) =>
    case ReadRetry(run) =>
    case DropRequest(request) =>
    case WriteTrigger(request, id, at) =>
      var s1 := s.(requests := s.requests - multiset{request});
      CreateIsNotScheduled(s1, NewRun(id, request.task.id, ByHand, at), None, Manual, t);
    case WriteRetry(request, id, at) =>
      var s1 := s.(requests := s.requests - multiset{request});
      CreateIsNotScheduled(s1, RetryOf(request.run, id, at), Some(request.run.id), Manual, t);
  }

  lemma QueueShrinks(s: State, e: Event, t: TaskId)
    requires Allowed(s, e) && !e.DispatchCreate? && !e.TickBegin?
    ensures Waiting(Apply(s, e).ticker, t) <= Waiting(s.ticker, t)
  {
    hide NextDue, FirstDue, ValidTask, RetriesAll, RecoverRuns, FinishRun, DeleteTask, SetNextRun, CreateRun;
  }

  /** However events interleave, while a task stays paused, disabled or deleted at most one schedule-triggered run of it
      is created: the one that the Tick in progress when it stopped still had in its queue. */
  lemma {:induction false} StoppedTaskRunsAtMostOnce(s: State, es: seq<Event>, t: TaskId)
    requires Basic(s) && ScheduleOk(s) && Possible(s, es) && StaysStopped(s, es, t)
    ensures |ScheduleRuns(After(s, es).runLog, t)| <= |ScheduleRuns(s.runLog, t)| + Waiting(s.ticker, t)
    decreases |es|
  {
    hide Basic, ScheduleOk, Allowed, Apply, ScheduleRuns, Waiting, Stopped;
    if es != [] {
      StepKeepsBasic(s, es[0]);
      StepKeepsSchedule(s, es[0]);
      StoppedStep(s, es[0], t);
      StoppedTaskRunsAtMostOnce(Apply(s, es[0]), es[1..], t);
    }
  }

  // ---------- until the task is resumed ----------

  /** The flag that a pause or a disable sets. */
  predicate Held(t: Task, byPause: bool) {
    if byPause then t.paused else !t.enabled
  }

  predicate Resumes(e: Event, t: TaskId, byPause: bool) {
    if byPause then e.Pause? && e.task == t && !e.paused else e.Enable? && e.task == t && e.enabled
  }

  lemma TaskLogGrows(s: State, e: Event)
    requires Allowed(s, e)
    ensures forall t | t in s.taskLog :: t in Apply(s, e).taskLog
  {
    hide FirstDue, ValidTask, NextDue, IsDueList, RetriesAll, FinishRun, RecoverRuns, CreateRun, SetNextRun, DeleteTask;
  }

  /** The events that write to task rows. */
  predicate WritesTasks(e: Event) {
    e.Finish? || e.DispatchAdvance? || e.Pause? || e.Enable? || e.RemoveTask? || e.ScheduleNew?
  }

  lemma OthersKeepTasks(s: State, e: Event)
    requires Allowed(s, e) && !WritesTasks(e)
    ensures Apply(s, e).db.tasks == s.db.tasks
  {
    if TickerEvent(e) {
      TickerKeepsTasks(s, e);
    } else if RequestEvent(e) {
      RequestsKeepTasks(s, e);
    } else if e.Recover? {
      hide RecoverRuns, RetriesAll;
      TasksUntouched(s, e.retries, e.marked);
    } else {
      hide CountAbort, RetriesAll;
    }
  }

  lemma TickerKeepsTasks(s: State, e: Event)
    requires Allowed(s, e) && TickerEvent(e) && !e.DispatchAdvance?
    ensures Apply(s, e).db.tasks == s.db.tasks
  {
    hide IsDueList, CountAbort;
  }

  lemma CreateKeepsTasks(s: State, run: Run, parent: Option<RunId>, owner: Owner)
    ensures Create(s, run, parent, owner).db.tasks == s.db.tasks && Create(s, run, parent, owner).taskLog == s.taskLog
  {
  }

  lemma RequestsKeepTasks(s: State, e: Event)
    requires Allowed(s, e) && RequestEvent(e)
    ensures Apply(s, e).db.tasks == s.db.tasks && Apply(s, e).taskLog == s.taskLog
  {
    hide Create;
    match e
    case ReadTrigger(task) =>
    case ReadRetry(run) =>
    case DropRequest(request) =>
    case WriteTrigger(request, id, at) =>
      var s1 := s.(requests := s.requests - multiset{request});
      CreateKeepsTasks(s1, NewRun(id, request.task.id, ByHand, at), None, Manual);
    case WriteRetry(request, id, at) =>
      var s1 := s.(requests := s.requests - multiset{request});
      CreateKeepsTasks(s1, RetryOf(request.run, id, at), Some(request.run.id), Manual);
  }

  lemma WritersKeepHeld(s: State, e: Event, t: TaskId, byPause: bool)
    requires Allowed(s, e) && t in s.taskLog && !Resumes(e, t, byPause) && WritesTasks(e)
    requires t in s.db.tasks ==> Held(s.db.tasks[t], byPause)
    ensures t in Apply(s, e).db.tasks ==> Held(Apply(s, e).db.tasks[t], byPause)
  {
    hide FirstDue, ValidTask, NextDue, Resumes;
    if e.Finish? {
      FinishRows(s.db, s.workers[e.id].run, e.ok, e.at);
      hide FinishRun;
    } else if e.Pause? || e.Enable? {
      FlagsKeepHeld(s, e, t, byPause);
    }
  }

  lemma FlagsKeepHeld(s: State, e: Event, t: TaskId, byPause: bool)
    requires (e.Pause? || e.Enable?) && Allowed(s, e) && !Resumes(e, t, byPause)
    requires t in s.db.tasks ==> Held(s.db.tasks[t], byPause)
    ensures t in Apply(s, e).db.tasks ==> Held(Apply(s, e).db.tasks[t], byPause)
  {
  }

  /** Only resuming it clears the flag. */
  lemma HeldStep(s: State, e: Event, t: TaskId, byPause: bool)
    requires Basic(s) && Allowed(s, e) && t in s.taskLog && !Resumes(e, t, byPause)
    requires t in s.db.tasks ==> Held(s.db.tasks[t], byPause)
    ensures t in Apply(s, e).taskLog && (t in Apply(s, e).db.tasks ==> Held(Apply(s, e).db.tasks[t], byPause))
  {
    hide Basic, Allowed, Apply, Held, Resumes, WritesTasks;
    TaskLogGrows(s, e);
    if WritesTasks(e) {
      WritersKeepHeld(s, e, t, byPause);
    } else {
      OthersKeepTasks(s, e);
    }
  }

  lemma {:induction false} HeldStays(s: State, es: seq<Event>, t: TaskId, byPause: bool)
    requires Basic(s) && Possible(s, es) && t in s.taskLog && forall e | e in es :: !Resumes(e, t, byPause)
    requires t in s.db.tasks ==> Held(s.db.tasks[t], byPause)
    ensures StaysStopped(s, es, t)
    decreases |es|
  {
    hide Basic, Allowed, Apply, Resumes;
    if es != [] {
      StepKeepsBasic(s, es[0]);
      HeldStep(s, es[0], t, byPause);
      HeldStays(Apply(s, es[0]), es[1..], t, byPause);
    }
  }
}

/** The scheduler as a state machine. Each event is one committed transaction, the loss of one, or a crash; executions
    lie between events, so anything else may happen between the creation and the outcome of a run.

    One ticker goroutine, any number of manual triggers and retries, and the operations of the HTTP handlers interleave
    freely while the process is up. After a crash recovery comes first: main.go calls Recover before Start and before
    serving. The logs at the end of the state are history: they never shrink and no transition reads them to decide
    anything, except that new identifiers have not been used before. */
module Engine {
  import opened Prelude
  import opened Model
  import opened Tables
  import Retry

  /** Who will execute a run that has been created. */
  datatype Owner = Ticking | Manual | Recovery

  datatype Worker = Worker(run: Run, owner: Owner)

  /** A manual operation that has read its rows but not yet created its run. */
  datatype Request = TriggerRequest(task: Task) | RetryRequest(run: Run, task: Task)

  /** A dispatch whose run has been created; executed says that its outcome has been committed. */
  datatype Dispatch = Dispatch(task: Task, run: RunId, executed: bool)

  /** A Tick in progress: its time, the due tasks it still has to dispatch, and the dispatch under way. */
  datatype Ticker = Idle | Tick(now: int, queue: seq<Task>, current: Option<Dispatch>)

  datatype Phase = Down | Recovering | Up

  /** A run as it was created. */
  datatype RunLog = RunLog(task: TaskId, attempt: int, trigger: Trigger, parent: Option<RunId>)

  /** A task as it was created, its next run time as last computed, the values of it that have been dispatched, and the
      number of dispatches that created a run but did not advance the schedule. */
  datatype TaskLog = TaskLog(created: Task, nextDue: int, dispatched: set<int>, aborted: nat)

  datatype State = State(
    db: Db, clock: int, phase: Phase, ticker: Ticker,
    workers: map<RunId, Worker>,    // runs created in this process and not yet finished
    lost: set<RunId>,               // runs whose execution in this process returned an error
    requests: multiset<Request>,
    runLog: map<RunId, RunLog>, taskLog: map<TaskId, TaskLog>, deleted: bool)

  datatype Event =
    | Wait(until: int)
    | ScheduleNew(created: Task)
    | TickBegin(now: int, due: seq<Task>)
    | DispatchCreate(id: RunId)
    | DispatchSkip
    | DispatchAdvance(at: int)
    | DispatchAbort
    | TickEnd
    | ReadTrigger(task: TaskId)
    | ReadRetry(run: RunId)
    | WriteTrigger(request: Request, id: RunId, at: int)
    | WriteRetry(request: Request, id: RunId, at: int)
    | DropRequest(request: Request)
    | Finish(id: RunId, ok: bool, at: int)
    | WorkerError(id: RunId)
    | Pause(task: TaskId, paused: bool, at: int)
    | Enable(task: TaskId, enabled: bool, at: int)
    | RemoveTask(task: TaskId)
    | RemoveRun(run: RunId)
    | Crash
    | Recover(retries: map<RunId, RunId>, marked: map<RunId, int>)
    | RecoverDone

  const Init := State(Db(map[], map[], map[]), 0, Down, Idle, map[], {}, multiset{}, map[], map[], false)

  // ---------- what an event needs ----------

  /** The next run time with which ScheduleNew persists a task created at now; that of a once task may be given. */
  ghost predicate FirstDue(t: Task, now: int) {
    match t.specType
    case SpecCron => NextCron(t, now) == Some(t.nextRunAt)
    case SpecDelayed => t.nextRunAt == now + t.delaySeconds * 1000
    case _ => t.nextRunAt == 0 ==> now == 0
  }

  /** The next run time dispatch computes at the time at. */
  ghost function NextDue(t: Task, at: int): int {
    match NextCron(t, at)
    case None => 0
    case Some(next) => next
  }

  ghost predicate InDispatch(s: State) {
    s.ticker.Tick? && s.ticker.current.Some?
  }

  ghost predicate Allowed(s: State, e: Event) {
    match e
    case Wait(until) => s.clock <= until
    case ScheduleNew(task) =>
      && s.phase == Up && task.id !in s.taskLog && ValidTask(task)
      && 0 <= task.createdAt <= s.clock && FirstDue(task, task.createdAt)
    case TickBegin(now, due) => s.phase == Up && s.ticker == Idle && 0 <= now <= s.clock && IsDueList(s.db, now, due)
    case DispatchCreate(id) => s.ticker.Tick? && s.ticker.current == None && s.ticker.queue != [] && id !in s.runLog
    case DispatchSkip => s.ticker.Tick? && s.ticker.current == None && s.ticker.queue != []
    case DispatchAdvance(at) => InDispatch(s) && s.ticker.current.value.executed && s.ticker.now <= at <= s.clock
    case DispatchAbort => InDispatch(s) && s.ticker.current.value.executed
    case TickEnd => s.ticker.Tick? && s.ticker.current == None && s.ticker.queue == []
    case ReadTrigger(task) => s.phase == Up && task in s.db.tasks
    case ReadRetry(run) =>
      && s.phase == Up && run in s.db.runs && s.db.runs[run].taskId in s.db.tasks
      && Retry.CanRetry(s.db.runs[run].attempt, s.db.tasks[s.db.runs[run].taskId].maxRetries)
    case WriteTrigger(request, id, at) =>
      request.TriggerRequest? && request in s.requests && id !in s.runLog && 0 <= at <= s.clock
    case WriteRetry(request, id, at) =>
      request.RetryRequest? && request in s.requests && id !in s.runLog && 0 <= at <= s.clock
    case DropRequest(request) => request in s.requests
    case Finish(id, ok, at) => id in s.workers && at <= s.clock
    case WorkerError(id) => id in s.workers
    case Pause(task, paused, at) => s.phase == Up
    case Enable(task, enabled, at) => s.phase == Up
    case RemoveTask(task) => s.phase == Up
    case RemoveRun(run) => s.phase == Up
    case Crash => s.phase != Down
    case Recover(retries, at) =>
      && s.phase == Down && RetriesAll(s.db, retries) && retries.Keys !! s.runLog.Keys
      && at.Keys == OrphanIds(s.db) && forall id | id in at :: 0 <= at[id] <= s.clock
    case RecoverDone => s.phase == Recovering && s.workers == map[]
  }

  // ---------- what an event does ----------

  function LogOf(run: Run, parent: Option<RunId>): RunLog {
    RunLog(run.taskId, run.attempt, run.trigger, parent)
  }

  /** A run is created and handed to a worker. */
  function Create(s: State, run: Run, parent: Option<RunId>, owner: Owner): State {
    s.(db := CreateRun(s.db, run), workers := s.workers[run.id := Worker(run, owner)],
       runLog := s.runLog[run.id := LogOf(run, parent)])
  }

  function DoDispatchCreate(s: State, id: RunId): State
    requires s.ticker.Tick? && s.ticker.queue != []
  {
    var task := s.ticker.queue[0];
    var s1 := Create(s, NewRun(id, task.id, BySchedule, s.ticker.now), None, Ticking);
    s1.(ticker := Tick(s.ticker.now, s.ticker.queue[1..], Some(Dispatch(task, id, false))),
        taskLog := if task.id !in s.taskLog then s.taskLog
                   else
                     var log := s.taskLog[task.id];
                     s.taskLog[task.id := log.(dispatched := log.dispatched + {task.nextRunAt})])
  }

  ghost function DoDispatchAdvance(s: State, at: int): State
    requires InDispatch(s)
  {
    var task := s.ticker.current.value.task;
    var next := NextDue(task, at);
    s.(db := SetNextRun(s.db, task.id, next, s.ticker.now, s.clock),
       ticker := s.ticker.(current := None),
       taskLog := if task.id !in s.taskLog then s.taskLog
                  else s.taskLog[task.id := s.taskLog[task.id].(nextDue := next)])
  }

  /** The dispatch under way ends without advancing the schedule. */
  function CountAbort(s: State): map<TaskId, TaskLog> {
    if s.ticker.Tick? && s.ticker.current.Some? && s.ticker.current.value.task.id in s.taskLog then
      var id := s.ticker.current.value.task.id;
      s.taskLog[id := s.taskLog[id].(aborted := s.taskLog[id].aborted + 1)]
    else s.taskLog
  }

  function DoDispatchAbort(s: State): State
    requires s.ticker.Tick?
  {
    s.(ticker := s.ticker.(current := None), taskLog := CountAbort(s))
  }

  function DoFinish(s: State, id: RunId, ok: bool, at: int): State
    requires id in s.workers
  {
    var w := s.workers[id];
    s.(db := FinishRun(s.db, w.run, ok, at), workers := s.workers - {id},
       ticker := if w.owner == Ticking && s.ticker.Tick? && s.ticker.current.Some?
                 then s.ticker.(current := Some(s.ticker.current.value.(executed := true))) else s.ticker)
  }

  function DoWorkerError(s: State, id: RunId): State
    requires id in s.workers
  {
    var s1 := s.(workers := s.workers - {id}, lost := s.lost + {id});
    if s.workers[id].owner == Ticking && s.ticker.Tick? then DoDispatchAbort(s1) else s1
  }

  function DoCrash(s: State): State {
    s.(phase := Down, ticker := Idle, workers := map[], lost := {}, requests := multiset{}, taskLog := CountAbort(s))
  }

  function DoRecover(s: State, retries: map<RunId, RunId>, at: map<RunId, int>): State
    requires RetriesAll(s.db, retries) && at.Keys == OrphanIds(s.db)
  {
    var db := RecoverRuns(s.db, retries, at);
    s.(db := db, phase := Recovering,
       workers := map id | id in retries :: Worker(db.runs[id], Recovery),
       runLog := s.runLog + map id | id in retries :: LogOf(db.runs[id], Some(retries[id])))
  }

  ghost function Apply(s: State, e: Event): State
    requires Allowed(s, e)
  {
    match e
    case Wait(until) => s.(clock := until)
    case ScheduleNew(task) =>
      s.(db := s.db.(tasks := s.db.tasks[task.id := task]),
         taskLog := s.taskLog[task.id := TaskLog(task, task.nextRunAt, {}, 0)])
    case TickBegin(now, due) => s.(ticker := Tick(now, due, None))
    case DispatchCreate(id) => DoDispatchCreate(s, id)
    case DispatchSkip => s.(ticker := s.ticker.(queue := s.ticker.queue[1..]))
    case DispatchAdvance(at) => DoDispatchAdvance(s, at)
    case DispatchAbort => DoDispatchAbort(s)
    case TickEnd => s.(ticker := Idle)
    case ReadTrigger(task) => s.(requests := s.requests + multiset{TriggerRequest(s.db.tasks[task])})
    case ReadRetry(run) =>
      s.(requests := s.requests + multiset{RetryRequest(s.db.runs[run], s.db.tasks[s.db.runs[run].taskId])})
    case WriteTrigger(request, id, at) =>
      Create(s.(requests := s.requests - multiset{request}), NewRun(id, request.task.id, ByHand, at), None, Manual)
    case WriteRetry(request, id, at) =>
      Create(s.(requests := s.requests - multiset{request}), RetryOf(request.run, id, at), Some(request.run.id), Manual)
    case DropRequest(request) => s.(requests := s.requests - multiset{request})
    case Finish(id, ok, at) => DoFinish(s, id, ok, at)
    case WorkerError(id) => DoWorkerError(s, id)
    case Pause(task, paused, at) => s.(db := SetPaused(s.db, task, paused, at))
    case Enable(task, enabled, at) => s.(db := SetEnabled(s.db, task, enabled, at))
    case RemoveTask(task) => s.(db := DeleteTask(s.db, task), deleted := true)
    case RemoveRun(run) => s.(db := DeleteRun(s.db, run), deleted := true)
    case Crash => DoCrash(s)
    case Recover(retries, at) => DoRecover(s, retries, at)
    case RecoverDone => s.(phase := Up)
  }

  // ---------- runs of the machine ----------

  ghost predicate Possible(s: State, es: seq<Event>)
    decreases |es|
  {
    es != [] ==> Allowed(s, es[0]) && Possible(Apply(s, es[0]), es[1..])
  }

  ghost function After(s: State, es: seq<Event>): State
    requires Possible(s, es)
    decreases |es|
  {
    if es == [] then s else After(Apply(s, es[0]), es[1..])
  }

  /** The run of the machine from its initial state that ends in s. */
  ghost predicate Reaches(es: seq<Event>, s: State) {
    Possible(Init, es) && After(Init, es) == s
  }

  lemma OneEvent(s: State, e: Event)
    requires Allowed(s, e)
    ensures Possible(s, [e]) && After(s, [e]) == Apply(s, e)
  {
    hide Allowed, Apply;
    assert [e][1..] == [];
  }

  /** A run goes on with any event that its last state allows. */
  lemma {:induction false} AfterAppend(s: State, es: seq<Event>, e: Event)
    requires Possible(s, es) && Allowed(After(s, es), e)
    ensures Possible(s, es + [e]) && After(s, es + [e]) == Apply(After(s, es), e)
    decreases |es|
  {
    hide Allowed, Apply;
    if es == [] {
      assert [] + [e] == [e] && [e][1..] == [];
    } else {
      AfterAppend(Apply(s, es[0]), es[1..], e);
      assert (es + [e])[1..] == es[1..] + [e];
    }
  }
}

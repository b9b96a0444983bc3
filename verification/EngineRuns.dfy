/** Statuses of runs over time, and chains of retries. */
module EngineRuns {
  import opened Prelude
  import opened Model
  import opened Tables
  import opened Engine
  import opened EngineInvariants

  // ---------- running rows ----------

  /** From recovery to the next crash every running row belongs to exactly one of: the worker that will finish it, and
      the runs whose execution returned an error. */
  lemma RunningRowHasOneOwner(s: State, id: RunId)
    requires Basic(s) && s.phase != Down && id in s.db.runs && s.db.runs[id].status == Running
    ensures (id in s.workers) != (id in s.lost)
    ensures id in s.workers ==> s.workers[id].run == s.db.runs[id]
  {
    hide Logged, DispatchOwned, PhaseOk;
  }

  // ---------- how a row changes ----------

  /** The moves of a status: each row leaves running or pending at most once, for good, and becomes orphaned only in a
      recovery. */
  ghost predicate StatusMove(before: RunStatus, after: RunStatus, recovery: bool) {
    || before == after
    || ((before == Running || before == Pending) && (after == Succeeded || after == Failed) && !recovery)
    || (before == Running && after == Orphaned && recovery)
  }

  ghost predicate RowMove(before: Run, after: Run, recovery: bool) {
    if Terminal(before.status) then after == before else StatusMove(before.status, after.status, recovery)
  }

  /** Rows that survive an event make a legal move, and no used identifier returns. */
  ghost predicate RowsMove(s: State, s': State, recovery: bool) {
    && (forall id | id in s.db.runs && id in s'.db.runs :: RowMove(s.db.runs[id], s'.db.runs[id], recovery))
    && (forall id | id in s.runLog && id in s'.db.runs :: id in s.db.runs)
  }

  lemma QuietRowsMove(s: State, s': State)
    requires QuietStep(s, s') && forall id | id in s.db.runs :: id in s.runLog
    ensures RowsMove(s, s', false)
  {
  }

  lemma FinishMovesRow(s: State, id: RunId, ok: bool, at: int)
    requires Basic(s) && id in s.workers
    ensures RowsMove(s, DoFinish(s, id, ok, at), false)
  {
    hide RunsLogged, TasksLogged, LogsAgree, RequestsLogged, TickerLogged, WorkersLogged, FinishRun, DispatchOwned;
    FinishRows(s.db, s.workers[id].run, ok, at);
    WorkerIds(s, id);
  }

  lemma WorkerIds(s: State, id: RunId)
    requires Basic(s) && id in s.workers
    ensures s.workers[id].run.id == id && id in s.runLog
  {
    hide Owned, RunsLogged, TasksLogged, LogsAgree, RequestsLogged, TickerLogged;
  }

  lemma RecoverMovesRows(s: State, retries: map<RunId, RunId>, marked: map<RunId, int>)
    requires Basic(s) && IsRecovery(s, retries, marked)
    ensures RowsMove(s, DoRecover(s, retries, marked), true)
  {
    hide RunsLogged, TasksLogged, LogsAgree, RequestsLogged, TickerLogged, WorkersLogged, RecoverRuns, RetriesAll;
    hide Owned;
    RecoveredRows(s.db, retries, marked);
    RowsAreLogged(s);
  }

  /** Every event moves rows legally. */
  lemma StepMovesRows(s: State, e: Event)
    requires Basic(s) && Allowed(s, e)
    ensures RowsMove(s, Apply(s, e), e.Recover?)
  {
    hide Basic, RowsMove, QuietStep, RetriesAll, DoFinish, DoRecover;
    if e.Finish? {
      FinishMovesRow(s, e.id, e.ok, e.at);
    } else if e.Recover? {
      RecoverMovesRows(s, e.retries, e.marked);
    } else {
      hide Allowed, Apply;
      EventIsQuiet(s, e);
      RowsAreLogged(s);
      QuietRowsMove(s, Apply(s, e));
    }
  }

  /** Over any run of the engine: a terminal row is never changed again, it can only be deleted. */
  lemma {:induction false} TerminalForever(s: State, es: seq<Event>, id: RunId)
    requires Basic(s) && Possible(s, es)
    requires id in s.runLog && (id in s.db.runs ==> Terminal(s.db.runs[id].status))
    ensures id in After(s, es).db.runs ==> id in s.db.runs && After(s, es).db.runs[id] == s.db.runs[id]
    decreases |es|
  {
    hide Basic, Allowed, Apply;
    if es != [] {
      var s1 := Apply(s, es[0]);
      StepKeepsBasic(s, es[0]);
      StepMovesRows(s, es[0]);
      LogGrows(s, es[0]);
      TerminalForever(s1, es[1..], id);
    }
  }

  /** The log of runs only grows. */
  lemma LogGrows(s: State, e: Event)
    requires Basic(s) && Allowed(s, e)
    ensures forall id | id in s.runLog :: id in Apply(s, e).runLog && Apply(s, e).runLog[id] == s.runLog[id]
  {
    hide Basic;
    if e.Finish? {
      hide FinishRun;
    } else if e.Recover? {
      hide RecoverRuns, RetriesAll;
    } else {
      EventIsQuiet(s, e);
      hide Allowed, Apply;
    }
  }

  // ---------- pending rows without a worker ----------

  /** The row waits, and no worker will execute it. */
  ghost predicate Stranded(s: State, id: RunId) {
    id in s.runLog && id !in s.workers && id in s.db.runs && s.db.runs[id].status == Pending
  }

  /** A retry that is pending when the process dies is stranded. */
  lemma CrashStrands(s: State, id: RunId)
    requires Basic(s) && s.phase != Down && id in s.db.runs && s.db.runs[id].status == Pending
    ensures Stranded(Apply(s, Crash), id)
  {
    RowsAreLogged(s);
    hide Basic;
  }

  lemma StrandedAtFinish(s: State, e: RunId, ok: bool, at: int, id: RunId)
    requires Basic(s) && e in s.workers && Stranded(s, id)
    ensures var s' := DoFinish(s, e, ok, at); id !in s'.workers && id in s'.db.runs && s'.db.runs[id] == s.db.runs[id]
  {
    hide FinishRun, Basic;
    WorkerIds(s, e);
    FinishRows(s.db, s.workers[e].run, ok, at);
  }

  lemma StrandedAtRecovery(s: State, retries: map<RunId, RunId>, marked: map<RunId, int>, id: RunId)
    requires IsRecovery(s, retries, marked) && Stranded(s, id)
    ensures var s' := DoRecover(s, retries, marked);
            id !in s'.workers && id in s'.db.runs && s'.db.runs[id] == s.db.runs[id]
  {
    hide RecoverRuns, RetriesAll;
    RecoveredRows(s.db, retries, marked);
  }

  lemma StrandedStep(s: State, e: Event, id: RunId)
    requires Basic(s) && Allowed(s, e) && Stranded(s, id)
    ensures id !in Apply(s, e).workers
    ensures id in Apply(s, e).db.runs ==> Apply(s, e).db.runs[id] == s.db.runs[id]
  {
    hide Basic, RetriesAll, DoFinish, DoRecover;
    if e.Finish? {
      StrandedAtFinish(s, e.id, e.ok, e.at, id);
    } else if e.Recover? {
      StrandedAtRecovery(s, e.retries, e.marked, id);
    } else {
      hide Allowed, Apply;
      EventIsQuiet(s, e);
    }
  }

  /** Recovery looks for running rows only, so a stranded row stays pending for ever, through any number of restarts; it
      can only be deleted. */
  lemma {:induction false} StrandedForever(s: State, es: seq<Event>, id: RunId)
    requires Basic(s) && Possible(s, es) && id in s.runLog && (id in s.db.runs ==> Stranded(s, id))
    ensures id in After(s, es).db.runs ==> id in s.db.runs && After(s, es).db.runs[id] == s.db.runs[id]
    decreases |es|
  {
    hide Basic, Allowed, Apply;
    if es != [] {
      var s1 := Apply(s, es[0]);
      StepKeepsBasic(s, es[0]);
      StepMovesRows(s, es[0]);
      LogGrows(s, es[0]);
      if id in s.db.runs {
        StrandedStep(s, es[0], id);
      }
      StrandedForever(s1, es[1..], id);
    }
  }

  // ---------- retry chains ----------

  /** A retry counts one more attempt than the run it retries, of the same task; every other run is a first attempt; and
      no attempt exceeds the budget of the task by more than one. */
  ghost predicate ChainOk(runLog: map<RunId, RunLog>, taskLog: map<TaskId, TaskLog>, id: RunId)
    requires id in runLog
  {
    var log := runLog[id];
    && log.task in taskLog && 1 <= log.attempt <= taskLog[log.task].created.maxRetries + 1
    && (if log.trigger == ByRetry then
          && log.parent.Some? && log.parent.value in runLog
          && runLog[log.parent.value].task == log.task && log.attempt == runLog[log.parent.value].attempt + 1
        else
          log.parent == None && log.attempt == 1)
  }

  ghost predicate ChainsOk(runLog: map<RunId, RunLog>, taskLog: map<TaskId, TaskLog>) {
    forall id | id in runLog :: ChainOk(runLog, taskLog, id)
  }

  lemma ChainsStay(runLog: map<RunId, RunLog>, taskLog: map<TaskId, TaskLog>, taskLog': map<TaskId, TaskLog>)
    requires ChainsOk(runLog, taskLog) && Grows(runLog, runLog, taskLog, taskLog')
    ensures ChainsOk(runLog, taskLog')
  {
  }

  lemma AddToChains(runLog: map<RunId, RunLog>, taskLog: map<TaskId, TaskLog>, id: RunId, log: RunLog)
    requires ChainsOk(runLog, taskLog) && id !in runLog && log.task in taskLog
    requires 1 <= log.attempt <= taskLog[log.task].created.maxRetries + 1
    requires if log.trigger == ByRetry then
               && log.parent.Some? && log.parent.value in runLog
               && runLog[log.parent.value].task == log.task && log.attempt == runLog[log.parent.value].attempt + 1
             else log.parent == None && log.attempt == 1
    ensures ChainsOk(runLog[id := log], taskLog)
  {
    var runLog' := runLog[id := log];
    forall j | j in runLog' ensures ChainOk(runLog', taskLog, j) {
      if j != id { assert ChainOk(runLog, taskLog, j); }
    }
  }

  lemma MaxRetriesAreBudgets(s: State)
    requires Basic(s)
    ensures forall id | id in s.taskLog :: 0 <= s.taskLog[id].created.maxRetries
  {
    hide Owned, RunsLogged, TasksLogged, RequestsLogged, TickerLogged, WorkersLogged;
  }

  lemma DispatchCreateKeepsChains(s: State, id: RunId)
    requires Basic(s) && ChainsOk(s.runLog, s.taskLog)
    requires s.ticker.Tick? && s.ticker.queue != [] && id !in s.runLog
    ensures ChainsOk(DoDispatchCreate(s, id).runLog, DoDispatchCreate(s, id).taskLog)
  {
    hide Logged, Owned, ChainOk;
    var task := s.ticker.queue[0];
    NextInQueue(s);
    MaxRetriesAreBudgets(s);
    var log := LogOf(NewRun(id, task.id, BySchedule, s.ticker.now), None);
    AddToChains(s.runLog, s.taskLog, id, log);
    ChainsStay(s.runLog[id := log], s.taskLog, DoDispatchCreate(s, id).taskLog);
  }

  lemma RetryRequestInBudget(s: State, request: Request)
    requires Basic(s) && request in s.requests
    ensures request.TriggerRequest? ==> request.task.id in s.taskLog
    ensures request.RetryRequest? ==>
              && request.run.id in s.runLog && request.run.taskId in s.taskLog
              && s.runLog[request.run.id].task == request.run.taskId
                  && s.runLog[request.run.id].attempt == request.run.attempt
              && request.run.attempt <= s.taskLog[request.run.taskId].created.maxRetries
  {
    hide Owned, RunsLogged, TasksLogged, LogsAgree, TickerLogged, WorkersLogged;
  }

  lemma WriteKeepsChains(s: State, request: Request, id: RunId, at: int)
    requires Basic(s) && ChainsOk(s.runLog, s.taskLog) && request in s.requests && id !in s.runLog
    ensures var run := if request.TriggerRequest? then NewRun(id, request.task.id, ByHand, at)
                       else RetryOf(request.run, id, at);
            var parent := if request.TriggerRequest? then None else Some(request.run.id);
            ChainsOk(s.runLog[id := LogOf(run, parent)], s.taskLog)
  {
    hide Basic, ChainsOk;
    MaxRetriesAreBudgets(s);
    RetryRequestInBudget(s, request);
    var run := if request.TriggerRequest? then NewRun(id, request.task.id, ByHand, at)
               else RetryOf(request.run, id, at);
    var parent := if request.TriggerRequest? then None else Some(request.run.id);
    if request.RetryRequest? { ChainAt(s.runLog, s.taskLog, request.run.id); }
    AddToChains(s.runLog, s.taskLog, id, LogOf(run, parent));
  }

  lemma ChainAt(runLog: map<RunId, RunLog>, taskLog: map<TaskId, TaskLog>, id: RunId)
    requires ChainsOk(runLog, taskLog) && id in runLog
    ensures ChainOk(runLog, taskLog, id)
  {
  }

  lemma OrphanInBudget(s: State, id: RunId)
    requires Basic(s) && id in RetriableIds(s.db)
    ensures id in s.runLog && s.db.runs[id].taskId == s.runLog[id].task && s.db.runs[id].attempt == s.runLog[id].attempt
    ensures s.runLog[id].task in s.taskLog && s.runLog[id].attempt <= s.taskLog[s.runLog[id].task].created.maxRetries
  {
    hide Owned, LogsAgree, RequestsLogged, TickerLogged, WorkersLogged;
  }

  lemma RecoverKeepsChains(s: State, retries: map<RunId, RunId>, marked: map<RunId, int>)
    requires Basic(s) && ChainsOk(s.runLog, s.taskLog) && IsRecovery(s, retries, marked)
    ensures ChainsOk(DoRecover(s, retries, marked).runLog, s.taskLog)
  {
    hide Basic, RecoverRuns;
    var s' := DoRecover(s, retries, marked);
    RecoveredRows(s.db, retries, marked);
    forall id | id in s'.runLog ensures ChainOk(s'.runLog, s.taskLog, id) {
      if id in retries {
        OrphanInBudget(s, retries[id]);
        assert ChainOk(s.runLog, s.taskLog, retries[id]);
      } else {
        assert ChainOk(s.runLog, s.taskLog, id);
      }
    }
  }

  lemma RequestStepKeepsChains(s: State, e: Event)
    requires Basic(s) && ChainsOk(s.runLog, s.taskLog) && Allowed(s, e) && RequestEvent(e)
    ensures ChainsOk(Apply(s, e).runLog, Apply(s, e).taskLog)
  {
    hide Basic, ChainsOk;
    match e
    case WriteTrigger(request, id, at) => WriteKeepsChains(s, request, id, at);
    case WriteRetry(request, id, at) => WriteKeepsChains(s, request, id, at);
    case _ =>
  }

  predicate CreatesRuns(e: Event) {
    RequestEvent(e) || e.DispatchCreate? || e.Recover?
  }

  /** No run is created, and tasks keep what was noted at their creation. */
  ghost predicate SameHistory(s: State, s': State) {
    && s'.runLog == s.runLog
    && (forall id | id in s.taskLog :: id in s'.taskLog && s'.taskLog[id].created == s.taskLog[id].created)
  }

  lemma TickerKeepsHistory(s: State, e: Event)
    requires Allowed(s, e) && TickerEvent(e) && !e.DispatchCreate?
    ensures SameHistory(s, Apply(s, e))
  {
    hide NextDue, IsDueList, SetNextRun;
  }

  lemma AbortKeepsHistory(s: State)
    ensures SameHistory(s, s.(taskLog := CountAbort(s)))
  {
  }

  lemma ProcessKeepsHistory(s: State, e: Event)
    requires Allowed(s, e) && ProcessEvent(e) && !e.Recover?
    ensures SameHistory(s, Apply(s, e))
  {
    hide FinishRun, CountAbort;
    AbortKeepsHistory(s);
    match e
    case Finish(id, ok, at) =>
    case WorkerError(id) =>
      AbortReads(s, id);
    case Crash =>
    case RecoverDone =>
  }

  lemma AbortReads(s: State, id: RunId)
    ensures CountAbort(s.(workers := s.workers - {id}, lost := s.lost + {id})) == CountAbort(s)
  {
  }

  lemma RowsKeepHistory(s: State, e: Event)
    requires Allowed(s, e) && !TickerEvent(e) && !ProcessEvent(e) && !RequestEvent(e)
    ensures SameHistory(s, Apply(s, e))
  {
    hide ValidTask, FirstDue, DeleteTask, DeleteRun, SetPaused, SetEnabled;
  }

  lemma OtherEventsKeepHistory(s: State, e: Event)
    requires Allowed(s, e) && !CreatesRuns(e)
    ensures SameHistory(s, Apply(s, e))
  {
    hide Allowed, Apply, SameHistory;
    if TickerEvent(e) {
      TickerKeepsHistory(s, e);
    } else if ProcessEvent(e) {
      ProcessKeepsHistory(s, e);
    } else {
      RowsKeepHistory(s, e);
    }
  }

  /** Every event keeps retry chains in order. */
  lemma StepKeepsChains(s: State, e: Event)
    requires Basic(s) && ChainsOk(s.runLog, s.taskLog) && Allowed(s, e)
    ensures ChainsOk(Apply(s, e).runLog, Apply(s, e).taskLog)
  {
    if RequestEvent(e) {
      RequestStepKeepsChains(s, e);
    } else if CreatesRuns(e) {
      ProcessStepKeepsChains(s, e);
    } else {
      hide Basic, ChainsOk, Allowed, Apply;
      OtherEventsKeepHistory(s, e);
      ChainsStay(s.runLog, s.taskLog, Apply(s, e).taskLog);
    }
  }

  lemma ProcessStepKeepsChains(s: State, e: Event)
    requires Basic(s) && ChainsOk(s.runLog, s.taskLog) && Allowed(s, e) && (e.DispatchCreate? || e.Recover?)
    ensures ChainsOk(Apply(s, e).runLog, Apply(s, e).taskLog)
  {
    hide Basic, ChainsOk, DoDispatchCreate, RetriesAll, DoRecover;
    if e.DispatchCreate? {
      DispatchCreateKeepsChains(s, e.id);
    } else {
      RecoverKeepsChains(s, e.retries, e.marked);
      LogsUntouched(s, e.retries, e.marked);
    }
  }

  lemma LogsUntouched(s: State, retries: map<RunId, RunId>, marked: map<RunId, int>)
    requires IsRecovery(s, retries, marked)
    ensures DoRecover(s, retries, marked).taskLog == s.taskLog
  {
  }

  lemma {:induction false} AlwaysChains(s: State, es: seq<Event>)
    requires Basic(s) && ChainsOk(s.runLog, s.taskLog) && Possible(s, es)
    ensures ChainsOk(After(s, es).runLog, After(s, es).taskLog)
    decreases |es|
  {
    hide Basic, ChainsOk, Allowed, Apply;
    if es != [] {
      StepKeepsBasic(s, es[0]);
      StepKeepsChains(s, es[0]);
      AlwaysChains(Apply(s, es[0]), es[1..]);
    }
  }

  /** The runs from id back to the run its retries started from. */
  ghost function Chain(runLog: map<RunId, RunLog>, taskLog: map<TaskId, TaskLog>, id: RunId): seq<RunId>
    requires ChainsOk(runLog, taskLog) && id in runLog
    decreases runLog[id].attempt
  {
    assert ChainOk(runLog, taskLog, id);
    if runLog[id].trigger != ByRetry then [id]
    else
      assert ChainOk(runLog, taskLog, runLog[id].parent.value);
      [id] + Chain(runLog, taskLog, runLog[id].parent.value)
  }

  /** Every run's chain is finite, ends at a run that is no retry, stays with one task, and is as long as its attempt
      number; so a chain never holds more than the task's retries plus one. */
  lemma {:induction false} ChainDepth(runLog: map<RunId, RunLog>, taskLog: map<TaskId, TaskLog>, id: RunId)
    requires ChainsOk(runLog, taskLog) && id in runLog
    ensures var chain := Chain(runLog, taskLog, id);
            && |chain| == runLog[id].attempt <= taskLog[runLog[id].task].created.maxRetries + 1
            && (forall i | 0 <= i < |chain| :: chain[i] in runLog && runLog[chain[i]].task == runLog[id].task
                                              && runLog[chain[i]].attempt == |chain| - i)
            && (forall i | 0 <= i < |chain| - 1 ::
                  runLog[chain[i]].trigger == ByRetry && runLog[chain[i]].parent == Some(chain[i + 1]))
            && runLog[chain[|chain| - 1]].trigger != ByRetry
    decreases runLog[id].attempt
  {
    assert ChainOk(runLog, taskLog, id);
    if runLog[id].trigger == ByRetry {
      var parent := runLog[id].parent.value;
      assert ChainOk(runLog, taskLog, parent);
      ChainDepth(runLog, taskLog, parent);
      var rest := Chain(runLog, taskLog, parent);
      assert rest[0] == parent;
    }
  }
}

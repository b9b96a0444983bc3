/** What holds in every state the engine can reach from an empty database, however events interleave,
    crashes included. */
module EngineTheorems {
  import opened Model
  import opened Tables
  import opened Engine
  import opened EngineInvariants
  import opened EngineRuns
  import opened EngineStats
  import opened EngineSchedule

  lemma ReachedIsSound(es: seq<Event>, s: State)
    requires Reaches(es, s)
    ensures Basic(s) && ChainsOk(s.runLog, s.taskLog) && StatsOk(s) && ScheduleOk(s) && NeverIdle(s.taskLog)
  {
    InitIsSound();
    hide Basic, ChainsOk, StatsOk, ScheduleOk, NeverIdle, Possible, After;
    AlwaysBasic(Init, es);
    AlwaysChains(Init, es);
    AlwaysStats(Init, es);
    AlwaysSchedule(Init, es);
    AlwaysNeverIdle(Init, es);
  }

  lemma InitIsSound()
    ensures Basic(Init) && ChainsOk(Init.runLog, Init.taskLog) && StatsOk(Init) && ScheduleOk(Init)
                && NeverIdle(Init.taskLog)
  {
  }

  /** While the process is up or recovers, each running row has one owner: a worker, or an execution that failed. */
  lemma RunningRowsAreOwned(es: seq<Event>, s: State, id: RunId)
    requires Reaches(es, s) && s.phase != Down && id in s.db.runs && s.db.runs[id].status == Running
    ensures (id in s.workers) != (id in s.lost)
    ensures id in s.workers ==> s.workers[id].run == s.db.runs[id]
  {
    hide Reaches, Basic;
    ReachedIsSound(es, s);
    RunningRowHasOneOwner(s, id);
  }

  /** Whatever happens next, a row makes one of the legal moves of StatusMove or is deleted, identifiers do not return,
      and orphans are made by recovery only. */
  lemma RowsOnlyMove(es: seq<Event>, s: State, e: Event)
    requires Reaches(es, s) && Allowed(s, e)
    ensures RowsMove(s, Apply(s, e), e.Recover?)
  {
    hide Reaches, Basic, Allowed, Apply, RowsMove;
    ReachedIsSound(es, s);
    StepMovesRows(s, e);
  }

  /** A terminal row is the same in every later state in which it still exists. */
  lemma TerminalRowsStay(es: seq<Event>, s: State, more: seq<Event>, id: RunId)
    requires Reaches(es, s) && Possible(s, more)
    requires id in s.db.runs && s.db.runs[id].status != Pending && s.db.runs[id].status != Running
    ensures id in After(s, more).db.runs ==> After(s, more).db.runs[id] == s.db.runs[id]
  {
    hide Reaches, Possible, After, Basic;
    ReachedIsSound(es, s);
    RowsAreLogged(s);
    TerminalForever(s, more, id);
  }

  /** Some continuation of the run ends the row. */
  ghost predicate CanEnd(s: State, id: RunId) {
    exists more :: EndsAfter(s, more, id)
  }

  ghost predicate EndsAfter(s: State, more: seq<Event>, id: RunId) {
    && Possible(s, more) && id in After(s, more).db.runs
    && After(s, more).db.runs[id].status != Pending && After(s, more).db.runs[id].status != Running
  }

  /** A pending retry can still end if and only if a worker of the process has it: one whose process died, or whose
      execution returned an error, is never executed. */
  lemma PendingEndsIff(es: seq<Event>, s: State, id: RunId)
    requires Reaches(es, s) && id in s.db.runs && s.db.runs[id].status == Pending
    ensures CanEnd(s, id) <==> id in s.workers
  {
    hide Reaches, Possible, After, Basic;
    ReachedIsSound(es, s);
    RowsAreLogged(s);
    if id in s.workers {
      WorkerCanFinish(s, id);
    } else {
      forall more ensures !EndsAfter(s, more, id) {
        if Possible(s, more) {
          StrandedForever(s, more, id);
        }
      }
    }
  }

  lemma WorkerCanFinish(s: State, id: RunId)
    requires Basic(s) && id in s.workers && id in s.db.runs
    ensures EndsAfter(s, [Finish(id, true, s.clock)], id)
  {
    hide Basic, FinishRun, Possible, After;
    var e := Finish(id, true, s.clock);
    WorkerIds(s, id);
    FinishRows(s.db, s.workers[id].run, true, s.clock);
    assert Allowed(s, e) && Apply(s, e) == DoFinish(s, id, true, s.clock);
    hide Allowed, Apply;
    OneEvent(s, e);
  }

  /** A retry that is pending at a crash is never executed. */
  lemma PendingAtCrashStays(es: seq<Event>, s: State, more: seq<Event>, id: RunId)
    requires Reaches(es, s) && Allowed(s, Crash) && Possible(Apply(s, Crash), more)
    requires id in s.db.runs && s.db.runs[id].status == Pending
    ensures var s' := After(Apply(s, Crash), more); id in s'.db.runs ==> s'.db.runs[id] == s.db.runs[id]
  {
    hide Reaches, Possible, After, Basic;
    ReachedIsSound(es, s);
    StepKeepsBasic(s, Crash);
    CrashStrands(s, id);
    StrandedForever(Apply(s, Crash), more, id);
  }

  /** Every row has a finite chain of retries behind it that starts at a run that is no retry; its attempt is its depth
      in the chain, and at most one more than the retries its task allows. */
  lemma AttemptsAreDepths(es: seq<Event>, s: State, id: RunId)
    requires Reaches(es, s) && id in s.db.runs
    ensures id in s.runLog && s.db.runs[id].taskId in s.taskLog && ChainsOk(s.runLog, s.taskLog)
    ensures var chain := Chain(s.runLog, s.taskLog, id);
            && s.db.runs[id].attempt == |chain| <= s.taskLog[s.db.runs[id].taskId].created.maxRetries + 1
            && chain[|chain| - 1] in s.runLog && s.runLog[chain[|chain| - 1]].trigger != ByRetry
  {
    hide Reaches, Basic, ChainsOk;
    ReachedIsSound(es, s);
    RowIsLogged(s, id);
    ChainDepth(s.runLog, s.taskLog, id);
  }

  lemma RowIsLogged(s: State, id: RunId)
    requires Basic(s) && id in s.db.runs
    ensures id in s.runLog && s.runLog[id].task in s.taskLog
    ensures s.db.runs[id].taskId == s.runLog[id].task && s.db.runs[id].attempt == s.runLog[id].attempt
  {
    hide Owned, TasksLogged, RequestsLogged, TickerLogged, WorkersLogged;
  }

  /** As long as nothing is deleted, the counters of each day are the recount, and their sums over all days are the
      totals of OverallStats without the orphaned runs. */
  lemma CountersAreRecounts(es: seq<Event>, s: State, day: int)
    requires Reaches(es, s) && !s.deleted
    ensures StatOf(s.db, day)
            == DailyStat(|RowsOn(s.db.runs, day, Succeeded)|, |RowsOn(s.db.runs, day, Failed)|, 0)
    ensures SumOfDays(s.db, s.db.stats.Keys, Succeeded) == OverallRuns(s.db).succeeded
    ensures SumOfDays(s.db, s.db.stats.Keys, Failed) == OverallRuns(s.db).failed - OverallRuns(s.db).orphaned
  {
    hide Reaches, Basic, OverallRuns, SumOfDays;
    ReachedIsSound(es, s);
    SumsAreTotals(s.db);
  }

  /** With deletions the counters are at least the recount. */
  lemma CountersCoverRecounts(es: seq<Event>, s: State, day: int)
    requires Reaches(es, s)
    ensures |RowsOn(s.db.runs, day, Succeeded)| <= StatOf(s.db, day).succeeded
    ensures |RowsOn(s.db.runs, day, Failed)| <= StatOf(s.db, day).failed
  {
    hide Reaches, Basic;
    ReachedIsSound(es, s);
  }

  /** The schedule-triggered runs of a cron task number at most the matching minutes since its creation plus its aborted
      dispatches; those of a once or delayed task at most one plus its aborted dispatches. */
  lemma ScheduleFiresAtMost(es: seq<Event>, s: State, t: TaskId)
    requires Reaches(es, s) && t in s.taskLog
    ensures var log, runs := s.taskLog[t], |ScheduleRuns(s.runLog, t)|;
            if log.created.specType == SpecCron then
              runs <= |CronTimes(log.created.cronExpr, log.created.createdAt, s.clock)| + log.aborted
            else runs <= 1 + log.aborted
  {
    hide Reaches, Basic, ScheduleRuns, CronTimes;
    ReachedIsSound(es, s);
    ScheduleRunsBounded(s, t);
  }

  /** A cron task that has a date in every year is never left without a next run time. */
  lemma YearlyTasksGoOn(es: seq<Event>, s: State, t: TaskId)
    requires Reaches(es, s) && t in s.db.tasks
    requires s.db.tasks[t].specType == SpecCron && RunsEveryYear(s.db.tasks[t].cronExpr)
    ensures 0 < s.db.tasks[t].nextRunAt
  {
    hide Reaches, RunsEveryYear, Owned, RunsLogged, LogsAgree, RequestsLogged, TickerLogged, WorkersLogged;
    ReachedIsSound(es, s);
    assert KeepsRunning(s.taskLog[t]);
  }

  /** After a pause or a disable of a task commits, at most one schedule-triggered run of it is created before an event
      resumes it, and only if the Tick in progress had found it due. */
  lemma StoppedTasksFireAtMostOnce(es: seq<Event>, s: State, stop: Event, t: TaskId, more: seq<Event>)
    requires Reaches(es, s) && Allowed(s, stop) && t in s.db.tasks
    requires (stop.Pause? && stop.paused && stop.task == t) || (stop.Enable? && !stop.enabled && stop.task == t)
    requires Possible(Apply(s, stop), more) && forall e | e in more :: !Resumes(e, t, stop.Pause?)
    ensures |ScheduleRuns(After(Apply(s, stop), more).runLog, t)| <= |ScheduleRuns(s.runLog, t)| + Waiting(s.ticker, t)
  {
    hide Reaches, Possible, After, Basic, ScheduleOk, Resumes, ScheduleRuns, Waiting;
    ReachedIsSound(es, s);
    StepKeepsBasic(s, stop);
    StepKeepsSchedule(s, stop);
    var s1 := Apply(s, stop);
    TasksAreLogged(s);
    assert s1.runLog == s.runLog && s1.ticker == s.ticker && s1.taskLog == s.taskLog;
    assert t in s1.db.tasks ==> Held(s1.db.tasks[t], stop.Pause?);
    hide Allowed, Apply, Held;
    HeldStays(s1, more, t, stop.Pause?);
    StoppedTaskRunsAtMostOnce(s1, more, t);
  }
}

/** The tables of internal/store and the effect on them of each repository function, as functions on values.
    A committed transaction is one such change; the day column of stats_daily holds the number of the day. */
module Tables {
  import opened Model
  import opened DayKeys

  datatype DailyStat = DailyStat(succeeded: nat, failed: nat, running: nat)

  datatype Db = Db(tasks: map<TaskId, Task>, runs: map<RunId, Run>, stats: map<int, DailyStat>)

  // ---------- run_repo.go ----------

  function CreateRun(db: Db, run: Run): Db {
    db.(runs := db.runs[run.id := run])
  }

  function UpdateRunStatus(db: Db, id: RunId, status: RunStatus, startedAt: int, finishedAt: int): Db {
    if id !in db.runs then db
    else db.(runs := db.runs[id := db.runs[id].(status := status, startedAt := startedAt, finishedAt := finishedAt)])
  }

  function RetryOf(orig: Run, id: RunId, at: int): Run {
    Run(id, orig.taskId, orig.attempt + 1, Pending, at, 0, 0, ByRetry)
  }

  function DeleteRun(db: Db, id: RunId): Db {
    db.(runs := db.runs - {id})
  }

  function OrphanIds(db: Db): set<RunId> {
    set id | id in db.runs && db.runs[id].status == Running
  }

  // ---------- task_repo.go ----------

  function SetEnabled(db: Db, id: TaskId, enabled: bool, updatedAt: int): Db {
    if id !in db.tasks then db
    else db.(tasks := db.tasks[id := db.tasks[id].(enabled := enabled, updatedAt := updatedAt)])
  }

  function SetPaused(db: Db, id: TaskId, paused: bool, updatedAt: int): Db {
    if id !in db.tasks then db
    else db.(tasks := db.tasks[id := db.tasks[id].(paused := paused, updatedAt := updatedAt)])
  }

  function SetNextRun(db: Db, id: TaskId, nextRunAt: int, lastRunAt: int, updatedAt: int): Db {
    if id !in db.tasks then db
    else db.(tasks := db.tasks[id := db.tasks[id].(nextRunAt := nextRunAt, lastRunAt := lastRunAt,
        updatedAt := updatedAt)])
  }

  function SetLastRun(db: Db, id: TaskId, lastRunAt: int): Db {
    if id !in db.tasks then db
    else db.(tasks := db.tasks[id := db.tasks[id].(lastRunAt := lastRunAt)])
  }

  /** Removes the task and its runs. */
  function DeleteTask(db: Db, id: TaskId): Db {
    db.(tasks := db.tasks - {id}, runs := map r | r in db.runs && db.runs[r].taskId != id :: db.runs[r])
  }

  function DueIds(db: Db, now: int): set<TaskId> {
    set id | id in db.tasks && IsDue(db.tasks[id], now)
  }

  /** The rows DueTasks returns: the due tasks, each once, by next run time. */
  ghost predicate IsDueList(db: Db, now: int, due: seq<Task>) {
    && (forall i | 0 <= i < |due| :: due[i].id in DueIds(db, now) && due[i] == db.tasks[due[i].id])
    && (forall id | id in DueIds(db, now) :: exists i :: 0 <= i < |due| && due[i].id == id)
    && (forall i, j | 0 <= i < j < |due| :: due[i].id != due[j].id && due[i].nextRunAt <= due[j].nextRunAt)
  }

  // ---------- stats.go ----------

  /** The counters of a day, all 0 when there is no row. */
  function StatOf(db: Db, day: int): DailyStat {
    if day in db.stats then db.stats[day] else DailyStat(0, 0, 0)
  }

  function RecordRunOutcome(db: Db, day: int, status: RunStatus): Db {
    var st := StatOf(db, day);
    match status
    case Succeeded => db.(stats := db.stats[day := st.(succeeded := st.succeeded + 1)])
    case Failed => db.(stats := db.stats[day := st.(failed := st.failed + 1)])
    case Orphaned => db.(stats := db.stats[day := st.(failed := st.failed + 1)])
    case Running => db.(stats := db.stats[day := st.(running := st.running + 1)])
    case Pending => db
  }

  function RowsWith(runs: map<RunId, Run>, status: RunStatus): set<RunId> {
    set id | id in runs && runs[id].status == status
  }

  /** The run columns of OverallStats: its failed column counts orphaned rows too. */
  datatype RunTotals = RunTotals(total: nat, succeeded: nat, failed: nat, orphaned: nat, running: nat)

  function OverallRuns(db: Db): RunTotals {
    RunTotals(|db.runs|, |RowsWith(db.runs, Succeeded)|,
              |RowsWith(db.runs, Failed) + RowsWith(db.runs, Orphaned)|, |RowsWith(db.runs, Orphaned)|,
              |RowsWith(db.runs, Running)|)
  }

  /** The task columns of OverallStats: a task that is both paused and disabled counts as both. */
  datatype TaskTotals = TaskTotals(total: nat, active: nat, paused: nat, disabled: nat)

  function OverallTasks(db: Db): TaskTotals {
    TaskTotals(|db.tasks|, |set id | id in db.tasks && Active(db.tasks[id])|,
               |set id | id in db.tasks && db.tasks[id].paused|, |set id | id in db.tasks && !db.tasks[id].enabled|)
  }

  // ---------- the transactions of scheduler.go ----------

  function Outcome(ok: bool): RunStatus {
    if ok then Succeeded else Failed
  }

  /** The transaction of executeRun: the run's status, the counter of its day, and the task's last run. */
  function FinishRun(db: Db, run: Run, ok: bool, finishedAt: int): Db {
    SetLastRun(RecordRunOutcome(UpdateRunStatus(db, run.id, Outcome(ok), run.startedAt, finishedAt),
                                DayOfMs(run.scheduledAt), Outcome(ok)),
               run.taskId, run.scheduledAt)
  }

  /** The run that runOnce persists. */
  function NewRun(id: RunId, task: TaskId, trigger: Trigger, at: int): Run {
    Run(id, task, 1, Running, at, at, 0, trigger)
  }

  /** The orphans that recovery retries: the task exists and the attempt is within its budget. */
  function RetriableIds(db: Db): set<RunId> {
    set id | id in OrphanIds(db) && db.runs[id].taskId in db.tasks
             && db.runs[id].attempt <= db.tasks[db.runs[id].taskId].maxRetries
  }

  /** retries maps each new run to the orphan it retries. */
  predicate RetriesAll(db: Db, retries: map<RunId, RunId>) {
    && (forall id | id in retries :: id !in db.runs && retries[id] in RetriableIds(db))
    && (forall o | o in RetriableIds(db) :: exists id :: id in retries && retries[id] == o)
    && (forall i, j | i in retries && j in retries && retries[i] == retries[j] :: i == j)
  }

  /** The transaction of Recover; at gives the time at which each orphan was marked. */
  function RecoverRuns(db: Db, retries: map<RunId, RunId>, at: map<RunId, int>): Db
    requires RetriesAll(db, retries) && at.Keys == OrphanIds(db)
  {
    db.(runs := map id | id in db.runs.Keys + retries.Keys ::
          if id in retries then RetryOf(db.runs[retries[id]], id, at[retries[id]])
          else if db.runs[id].status == Running then db.runs[id].(status := Orphaned, finishedAt := at[id])
          else db.runs[id])
  }
}

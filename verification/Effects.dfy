/** What a Tick and a recovery leave in the tables, column by column. */
module Effects {
  import opened Prelude
  import opened Model
  import opened CronNext
  import opened CronParse
  import opened Tables
  import opened FaultFree

  // ---------- one Tick ----------

  ghost function NextRow(t: Task, now: int, note: Note): Task {
    var n := if t.specType == SpecCron then NextCron(t, note.computedAt) else None;
    t.(nextRunAt := if n.Some? then n.value else 0, lastRunAt := now, updatedAt := note.updatedAt)
  }

  lemma TaskAfterIs(t: Task, now: int, note: Note)
    ensures TaskAfter(t, now, note) == NextRow(t, now, note)
  {
    hide ParseSpec, NextMatch;
  }

  /** The schedules of the dispatched tasks have moved on: a cron task to the next time after its execution, the others
      to none. No other task has changed. */
  ghost predicate TasksTicked(db: Db, now: int, due: seq<Task>, notes: seq<Note>, db': Db)
    requires |notes| == |due|
  {
    && db'.tasks.Keys == db.tasks.Keys
    && (forall id | id in db.tasks && !(db.tasks[id].enabled && !db.tasks[id].paused
                                        && 0 < db.tasks[id].nextRunAt <= now) ::
          db'.tasks[id] == db.tasks[id])
    && (forall i | 0 <= i < |due| ::
          var n := if due[i].specType == SpecCron then NextCron(due[i], notes[i].computedAt) else None;
          && due[i].id in db'.tasks
          && db'.tasks[due[i].id] == due[i].(nextRunAt := if n.Some? then n.value else 0,
                                             lastRunAt := now, updatedAt := notes[i].updatedAt))
  }

  lemma TickTasks(db: Db, now: int, due: seq<Task>, notes: seq<Note>)
    requires IsDueList(db, now, due) && |notes| == |due|
    ensures TasksTicked(db, now, due, notes, DispatchAll(db, due, now, notes))
  {
    hide NextCron, DispatchAll;
    IsSnapshot(db, now, due);
    DispatchAllTasks(db, due, now, notes);
    hide IsDueList, Untouched, TaskAfter;
    forall i | 0 <= i < |due| ensures TaskAfter(due[i], now, notes[i]) == NextRow(due[i], now, notes[i]) {
      TaskAfterIs(due[i], now, notes[i]);
    }
  }

  /** Each dispatched task has one new run, which has ended; the other runs have not changed. */
  ghost predicate RunsTicked(db: Db, now: int, due: seq<Task>, notes: seq<Note>, db': Db)
    requires |notes| == |due|
  {
    && db'.runs.Keys == db.runs.Keys + (set i | 0 <= i < |notes| :: notes[i].id)
    && (forall id | id in db.runs :: id in db'.runs && db'.runs[id] == db.runs[id])
    && (forall i | 0 <= i < |notes| ::
          && notes[i].id in db'.runs
          && db'.runs[notes[i].id] == Run(notes[i].id, due[i].id, 1, if notes[i].ok then Succeeded else Failed,
                                          now, now, notes[i].finishedAt, BySchedule))
  }

  lemma TickRuns(db: Db, now: int, due: seq<Task>, notes: seq<Note>)
    requires |notes| == |due| && FreshNotes(db, notes)
    ensures RunsTicked(db, now, due, notes, DispatchAll(db, due, now, notes))
  {
    hide DispatchAll;
    DispatchAllRuns(db, due, now, notes);
  }

  ghost function Succeeding(notes: seq<Note>): set<int> {
    set i | 0 <= i < |notes| && notes[i].ok
  }

  lemma {:induction false} SuccessesAre(notes: seq<Note>)
    ensures Successes(notes) == |Succeeding(notes)|
    decreases |notes|
  {
    if notes == [] {
      assert Succeeding(notes) == {};
    } else {
      var n := |notes| - 1;
      SuccessesAre(notes[..n]);
      assert forall i | 0 <= i < n :: notes[..n][i] == notes[i];
      assert Succeeding(notes) == Succeeding(notes[..n]) + if notes[n].ok then {n} else {};
    }
  }

  /** Each outcome has counted once, on the UTC day of the Tick. */
  ghost predicate CountersTicked(db: Db, now: int, notes: seq<Note>, db': Db, day: int) {
    var was := if day in db.stats then db.stats[day] else DailyStat(0, 0, 0);
    var got := if day in db'.stats then db'.stats[day] else DailyStat(0, 0, 0);
    if day != now / 86_400_000 then got == was
    else got.succeeded == was.succeeded + |Succeeding(notes)| && got.running == was.running
         && got.failed == was.failed + |notes| - |Succeeding(notes)|
  }

  lemma TickCounters(db: Db, now: int, due: seq<Task>, notes: seq<Note>, day: int)
    requires |notes| == |due|
    ensures CountersTicked(db, now, notes, DispatchAll(db, due, now, notes), day)
  {
    hide DispatchAll, Successes;
    DispatchAllStats(db, due, now, notes, day);
    SuccessesAre(notes);
  }

  /** A dispatch reads the clock after the execution, for the next run, and for the update. */
  ghost predicate InOrder(note: Note, start: int, end: int) {
    start <= note.finishedAt <= note.computedAt <= note.updatedAt <= end
  }

  /** What a Tick leaves. */
  lemma TickColumns(db: Db, now: int, due: seq<Task>, notes: seq<Note>)
    requires IsDueList(db, now, due) && |notes| == |due| && FreshNotes(db, notes)
    ensures var db' := DispatchAll(db, due, now, notes);
            RunsTicked(db, now, due, notes, db') && TasksTicked(db, now, due, notes, db')
            && forall day :: CountersTicked(db, now, notes, db', day)
  {
    hide IsDueList, FreshNotes, DispatchAll, RunsTicked, TasksTicked, CountersTicked;
    TickTasks(db, now, due, notes);
    TickRuns(db, now, due, notes);
    forall day ensures CountersTicked(db, now, notes, DispatchAll(db, due, now, notes), day) {
      TickCounters(db, now, due, notes, day);
    }
  }

  // ---------- one recovery ----------

  lemma OrphanIdsAre(db: Db)
    ensures OrphanIds(db) == set id | id in db.runs && db.runs[id].status == Running
  {
  }

  /** The row is running, its task exists, and its attempt is within the budget of the task. */
  ghost predicate MayRetry(db: Db, o: RunId) {
    && o in db.runs && db.runs[o].status == Running && db.runs[o].taskId in db.tasks
    && db.runs[o].attempt <= db.tasks[db.runs[o].taskId].maxRetries
  }

  /** Exactly those rows are retried, each once. */
  ghost predicate RetriesExactly(db: Db, retries: map<RunId, RunId>) {
    && (forall id | id in retries :: id !in db.runs && MayRetry(db, retries[id]))
    && (forall o | MayRetry(db, o) :: exists id :: id in retries && retries[id] == o)
    && (forall i, j | i in retries && j in retries && i != j :: retries[i] != retries[j])
  }

  lemma RetriesAre(db: Db, retries: map<RunId, RunId>)
    ensures RetriesAll(db, retries) <==> RetriesExactly(db, retries)
  {
    forall o ensures o in RetriableIds(db) <==> MayRetry(db, o) { RetriableIff(db, o); }
    hide RetriableIds, MayRetry;
  }

  lemma RetriableIff(db: Db, o: RunId)
    ensures o in RetriableIds(db) <==> MayRetry(db, o)
  {
  }

  /** The rows of the runs after a recovery with these marks and endings. */
  ghost predicate RowsRecovered(db: Db, retries: map<RunId, RunId>, marked: map<RunId, int>, runs: seq<Run>,
                                endings: seq<Ending>, db': Db) {
    && |endings| == |runs| && db'.runs.Keys == db.runs.Keys + retries.Keys
    && (forall id | id in db.runs ::
          && id in db'.runs && (db.runs[id].status == Running ==> id in marked)
          && db'.runs[id] == if db.runs[id].status != Running then db.runs[id]
                             else db.runs[id].(status := Orphaned, finishedAt := marked[id]))
    && (forall i | 0 <= i < |runs| ::
          && runs[i].id in db'.runs && RetryOfOrphan(db, retries, marked, runs[i])
          && db'.runs[runs[i].id]
             == runs[i].(status := if endings[i].ok then Succeeded else Failed, finishedAt := endings[i].at))
  }

  ghost predicate RetryOfOrphan(db: Db, retries: map<RunId, RunId>, marked: map<RunId, int>, r: Run) {
    && r.id in retries && retries[r.id] in db.runs && db.runs[retries[r.id]].status == Running
    && retries[r.id] in marked
    && var o := db.runs[retries[r.id]];
       r == Run(r.id, o.taskId, o.attempt + 1, Pending, marked[retries[r.id]], 0, 0, ByRetry)
  }

  lemma RecoveryRuns(db: Db, retries: map<RunId, RunId>, marked: map<RunId, int>, runs: seq<Run>, endings: seq<Ending>)
    requires RetriesAll(db, retries) && marked.Keys == OrphanIds(db) && |endings| == |runs|
    requires ListsRetries(RecoverRuns(db, retries, marked), retries, runs)
    ensures RowsRecovered(db, retries, marked, runs, endings,
                          FinishAll(RecoverRuns(db, retries, marked), runs, endings))
    ensures RecoverRuns(db, retries, marked).tasks == db.tasks && RecoverRuns(db, retries, marked).stats == db.stats
  {
    hide FinishAll, ListsRetries;
    var db1 := RecoverRuns(db, retries, marked);
    RetriesFinish(db1, retries, runs, endings);
    OtherRowsStay(db1, retries, runs, endings, FinishAll(db1, runs, endings));
    OrphansAreNoRetries(db, retries);
    ListedAreRetries(db1, retries, runs);
  }

  lemma ListedAreRetries(db1: Db, retries: map<RunId, RunId>, runs: seq<Run>)
    requires ListsRetries(db1, retries, runs)
    ensures forall i | 0 <= i < |runs| ::
              runs[i].id in retries && runs[i].id in db1.runs && db1.runs[runs[i].id] == runs[i]
  {
  }

  /** The last run of the task in the list was scheduled at the time. */
  ghost predicate LastScheduled(runs: seq<Run>, task: TaskId, at: int) {
    exists i :: 0 <= i < |runs| && runs[i].taskId == task && runs[i].scheduledAt == at && NoRunAfter(runs, task, i)
  }

  ghost predicate NoRunAfter(runs: seq<Run>, task: TaskId, i: int) {
    forall j | 0 <= j < |runs| && i < j :: runs[j].taskId != task
  }

  /** The task of each run that is executed has that run as its last; nothing else of a task changes. */
  lemma {:induction false} FinishAllTasks(db: Db, runs: seq<Run>, endings: seq<Ending>, t: TaskId)
    requires |endings| == |runs| && t in db.tasks
    ensures var db' := FinishAll(db, runs, endings);
            && db'.tasks.Keys == db.tasks.Keys
            && db'.tasks[t] == db.tasks[t].(lastRunAt := db'.tasks[t].lastRunAt)
            && if NoRunAfter(runs, t, -1) then db'.tasks[t] == db.tasks[t]
               else LastScheduled(runs, t, db'.tasks[t].lastRunAt)
    decreases |runs|
  {
    if runs != [] {
      var n := |runs| - 1;
      var before := FinishAll(db, runs[..n], endings[..n]);
      FinishAllTasks(db, runs[..n], endings[..n], t);
      OutcomeCommitted(before, runs[n], endings[n].ok, endings[n].at);
      hide FinishRun, LastScheduled, NoRunAfter;
      OneMoreScheduled(runs, t, before.tasks[t].lastRunAt);
    }
  }

  lemma OneMoreScheduled(runs: seq<Run>, t: TaskId, at: int)
    requires runs != []
    ensures var n := |runs| - 1;
            && (runs[n].taskId == t ==> !NoRunAfter(runs, t, -1) && LastScheduled(runs, t, runs[n].scheduledAt))
            && (runs[n].taskId != t ==>
                  && (NoRunAfter(runs, t, -1) <==> NoRunAfter(runs[..n], t, -1))
                  && (LastScheduled(runs[..n], t, at) ==> LastScheduled(runs, t, at)))
  {
    var n := |runs| - 1;
    assert forall i | 0 <= i < n :: runs[..n][i] == runs[i];
    if runs[n].taskId == t {
      assert NoRunAfter(runs, t, n);
    } else if LastScheduled(runs[..n], t, at) {
      var i :| 0 <= i < n && runs[i].taskId == t && runs[i].scheduledAt == at && NoRunAfter(runs[..n], t, i);
      assert NoRunAfter(runs, t, i);
    }
  }

  /** The runs of the list that were scheduled on the day and ended like this. */
  ghost function EndedOn(runs: seq<Run>, endings: seq<Ending>, day: int, ok: bool): set<RunId>
    requires |endings| == |runs|
  {
    set i | 0 <= i < |runs| && runs[i].scheduledAt / 86_400_000 == day && endings[i].ok == ok :: runs[i].id
  }

  /** Their counters: each run counts once, on the day for which it was scheduled. */
  lemma {:induction false} FinishAllStats(db: Db, runs: seq<Run>, endings: seq<Ending>, day: int)
    requires |endings| == |runs| && DistinctRuns(runs)
    ensures var st, st' := StatOf(db, day), StatOf(FinishAll(db, runs, endings), day);
            && st'.succeeded == st.succeeded + |EndedOn(runs, endings, day, true)|
            && st'.failed == st.failed + |EndedOn(runs, endings, day, false)| && st'.running == st.running
    decreases |runs|
  {
    if runs == [] {
      assert EndedOn(runs, endings, day, true) == {} && EndedOn(runs, endings, day, false) == {};
    } else {
      var n := |runs| - 1;
      var before := FinishAll(db, runs[..n], endings[..n]);
      FinishAllStats(db, runs[..n], endings[..n], day);
      OutcomeCommitted(before, runs[n], endings[n].ok, endings[n].at);
      OneMoreEnded(runs, endings, day, true);
      OneMoreEnded(runs, endings, day, false);
      hide FinishRun, EndedOn;
    }
  }

  lemma OneMoreEnded(runs: seq<Run>, endings: seq<Ending>, day: int, ok: bool)
    requires runs != [] && |endings| == |runs| && DistinctRuns(runs)
    ensures var n := |runs| - 1;
            |EndedOn(runs, endings, day, ok)| == |EndedOn(runs[..n], endings[..n], day, ok)|
              + if runs[n].scheduledAt / 86_400_000 == day && endings[n].ok == ok then 1 else 0
  {
    var n := |runs| - 1;
    EndedPrefix(runs, endings, day, ok);
    assert runs[n].id !in EndedOn(runs[..n], endings[..n], day, ok);
  }

  lemma EndedPrefix(runs: seq<Run>, endings: seq<Ending>, day: int, ok: bool)
    requires runs != [] && |endings| == |runs|
    ensures var n := |runs| - 1;
            EndedOn(runs, endings, day, ok)
            == EndedOn(runs[..n], endings[..n], day, ok)
               + if runs[n].scheduledAt / 86_400_000 == day && endings[n].ok == ok then {runs[n].id} else {}
  {
    var n := |runs| - 1;
    var earlier := EndedOn(runs[..n], endings[..n], day, ok);
    assert forall i | 0 <= i < n :: runs[..n][i] == runs[i] && endings[..n][i] == endings[i];
    forall id | id in earlier ensures id in EndedOn(runs, endings, day, ok) {
      var i :| 0 <= i < n && runs[..n][i].scheduledAt / 86_400_000 == day && endings[..n][i].ok == ok
               && runs[..n][i].id == id;
    }
    forall id | id in EndedOn(runs, endings, day, ok) && id !in earlier
      ensures runs[n].scheduledAt / 86_400_000 == day && endings[n].ok == ok && id == runs[n].id
    {
      var i :| 0 <= i < |runs| && runs[i].scheduledAt / 86_400_000 == day && endings[i].ok == ok && runs[i].id == id;
    }
  }

  /** The orphans were marked between start and committed, and the retries executed between committed and end. */
  ghost predicate Timely(marked: map<RunId, int>, endings: seq<Ending>, start: int, committed: int, end: int) {
    && (forall id | id in marked :: start <= marked[id] <= committed)
    && (forall i | 0 <= i < |endings| :: committed <= endings[i].at <= end)
  }

  ghost predicate Outcomes(exec: (Task, Run) -> bool, tasks: map<TaskId, Task>, runs: seq<Run>, endings: seq<Ending>) {
    && |endings| == |runs|
    && forall i | 0 <= i < |runs| :: runs[i].taskId in tasks && endings[i].ok == exec(tasks[runs[i].taskId], runs[i])
  }

  /** What was running is marked as orphaned, between the two times, and no other old row has changed. */
  ghost predicate OrphansMarked(db: Db, retries: map<RunId, RunId>, db': Db, start: int, end: int) {
    && db'.runs.Keys == db.runs.Keys + retries.Keys
    && forall id | id in db.runs ::
         && id in db'.runs
         && if db.runs[id].status != Running then db'.runs[id] == db.runs[id]
            else db'.runs[id] == db.runs[id].(status := Orphaned, finishedAt := db'.runs[id].finishedAt)
                 && start <= db'.runs[id].finishedAt <= end
  }

  /** Each retry counts one more attempt of the orphan's task, is scheduled when the orphan was marked, and has ended by
      the time given as the executor decided. */
  ghost predicate RetriesExecuted(db: Db, retries: map<RunId, RunId>, db': Db, exec: (Task, Run) -> bool, end: int) {
    forall id | id in retries :: RetryExecuted(db, id, retries[id], db', exec, end)
  }

  ghost predicate RetryExecuted(db: Db, id: RunId, orphan: RunId, db': Db, exec: (Task, Run) -> bool, end: int) {
    && orphan in db.runs && orphan in db'.runs && db.runs[orphan].taskId in db.tasks && id in db'.runs
    && var o, at := db.runs[orphan], db'.runs[orphan].finishedAt;
       var ok := exec(db.tasks[o.taskId], Run(id, o.taskId, o.attempt + 1, Pending, at, 0, 0, ByRetry));
       && db'.runs[id] == Run(id, o.taskId, o.attempt + 1, if ok then Succeeded else Failed, at, 0,
                              db'.runs[id].finishedAt, ByRetry)
       && at <= db'.runs[id].finishedAt <= end
  }

  lemma RecoveredOrphans(db: Db, retries: map<RunId, RunId>, marked: map<RunId, int>, runs: seq<Run>,
                         endings: seq<Ending>, db': Db, start: int, committed: int, end: int)
    requires RowsRecovered(db, retries, marked, runs, endings, db')
    requires start <= committed <= end && Timely(marked, endings, start, committed, end)
    ensures OrphansMarked(db, retries, db', start, end)
  {
  }

  lemma RecoveredRetries(db: Db, retries: map<RunId, RunId>, marked: map<RunId, int>, runs: seq<Run>,
                         endings: seq<Ending>, db': Db, start: int, committed: int, end: int,
                         exec: (Task, Run) -> bool)
    requires RowsRecovered(db, retries, marked, runs, endings, db') && RunsList(retries, runs)
    requires Timely(marked, endings, start, committed, end) && Outcomes(exec, db.tasks, runs, endings)
    ensures RetriesExecuted(db, retries, db', exec, end)
  {
    hide Timely;
    forall id | id in retries ensures RetryExecuted(db, id, retries[id], db', exec, end) {
      var i :| 0 <= i < |runs| && runs[i].id == id;
      OneRetry(db, retries, marked, runs, endings, db', start, committed, end, exec, i);
    }
    hide RetryExecuted;
  }

  lemma OneRetry(db: Db, retries: map<RunId, RunId>, marked: map<RunId, int>, runs: seq<Run>, endings: seq<Ending>,
                 db': Db, start: int, committed: int, end: int, exec: (Task, Run) -> bool, i: nat)
    requires RowsRecovered(db, retries, marked, runs, endings, db') && i < |runs| && runs[i].id in retries
    requires Timely(marked, endings, start, committed, end) && Outcomes(exec, db.tasks, runs, endings)
    ensures RetryExecuted(db, runs[i].id, retries[runs[i].id], db', exec, end)
  {
  }

  /** Every retry is in the list. */
  ghost predicate RunsList(retries: map<RunId, RunId>, runs: seq<Run>) {
    && DistinctRuns(runs) && (forall i | 0 <= i < |runs| :: runs[i].id in retries)
    && forall id | id in retries :: exists i :: 0 <= i < |runs| && runs[i].id == id
  }

  /** Some retry of the task was scheduled at the time. */
  ghost predicate RetriedAt(retries: map<RunId, RunId>, rows: map<RunId, Run>, task: TaskId, at: int) {
    exists id :: id in retries && id in rows && rows[id].taskId == task && rows[id].scheduledAt == at
  }

  /** One of its retries is the last run of each task that has any; nothing else of a task has changed. */
  ghost predicate LastRunsMoved(db: Db, retries: map<RunId, RunId>, db': Db) {
    && db'.tasks.Keys == db.tasks.Keys
    && forall t | t in db.tasks ::
         && db'.tasks[t] == db.tasks[t].(lastRunAt := db'.tasks[t].lastRunAt)
         && if forall id | id in retries && id in db'.runs :: db'.runs[id].taskId != t
            then db'.tasks[t] == db.tasks[t]
            else RetriedAt(retries, db'.runs, t, db'.tasks[t].lastRunAt)
  }

  lemma RecoveredTasks(db: Db, db1: Db, retries: map<RunId, RunId>, marked: map<RunId, int>, runs: seq<Run>,
                       endings: seq<Ending>, db': Db)
    requires RowsRecovered(db, retries, marked, runs, endings, db') && RunsList(retries, runs)
    requires db1.tasks == db.tasks && db' == FinishAll(db1, runs, endings)
    ensures LastRunsMoved(db, retries, db')
  {
    hide FinishAll, RetriedAt;
    FinishAllKeepsTasks(db1, runs, endings);
    RetriesKeepColumns(db, retries, marked, runs, endings, db');
    hide RowsRecovered, RunsList;
    forall t | t in db.tasks
      ensures db'.tasks[t] == db.tasks[t].(lastRunAt := db'.tasks[t].lastRunAt)
      ensures if forall id | id in retries && id in db'.runs :: db'.runs[id].taskId != t
              then db'.tasks[t] == db.tasks[t] else RetriedAt(retries, db'.runs, t, db'.tasks[t].lastRunAt)
    {
      FinishAllTasks(db1, runs, endings, t);
      LastRunIsRetry(retries, runs, db', t, db'.tasks[t].lastRunAt);
    }
  }

  lemma RetriesKeepColumns(db: Db, retries: map<RunId, RunId>, marked: map<RunId, int>, runs: seq<Run>,
                           endings: seq<Ending>, db': Db)
    requires RowsRecovered(db, retries, marked, runs, endings, db')
    ensures forall i | 0 <= i < |runs| ::
              && runs[i].id in db'.runs && db'.runs[runs[i].id].taskId == runs[i].taskId
              && db'.runs[runs[i].id].scheduledAt == runs[i].scheduledAt
              && db'.runs[runs[i].id].status == if endings[i].ok then Succeeded else Failed
  {
    hide RetryOfOrphan;
  }

  lemma {:induction false} FinishAllKeepsTasks(db: Db, runs: seq<Run>, endings: seq<Ending>)
    requires |endings| == |runs|
    ensures FinishAll(db, runs, endings).tasks.Keys == db.tasks.Keys
    decreases |runs|
  {
    if runs != [] {
      var n := |runs| - 1;
      FinishAllKeepsTasks(db, runs[..n], endings[..n]);
      OutcomeCommitted(FinishAll(db, runs[..n], endings[..n]), runs[n], endings[n].ok, endings[n].at);
      hide FinishRun;
    }
  }

  lemma LastRunIsRetry(retries: map<RunId, RunId>, runs: seq<Run>, db': Db, t: TaskId, at: int)
    requires RunsList(retries, runs)
    requires forall i | 0 <= i < |runs| :: runs[i].id in db'.runs && db'.runs[runs[i].id].taskId == runs[i].taskId
               && db'.runs[runs[i].id].scheduledAt == runs[i].scheduledAt
    ensures NoRunAfter(runs, t, -1) <==> forall id | id in retries && id in db'.runs :: db'.runs[id].taskId != t
    ensures LastScheduled(runs, t, at) ==> RetriedAt(retries, db'.runs, t, at)
  {
    forall id | id in retries && id in db'.runs && NoRunAfter(runs, t, -1) ensures db'.runs[id].taskId != t {
      var i :| 0 <= i < |runs| && runs[i].id == id;
    }
    if LastScheduled(runs, t, at) {
      var i :| 0 <= i < |runs| && runs[i].taskId == t && runs[i].scheduledAt == at && NoRunAfter(runs, t, i);
      assert runs[i].id in retries;
    }
  }

  /** Each retry counts once, on the UTC day for which it was scheduled; the orphans do not count. */
  ghost predicate RetriesCounted(db: Db, retries: map<RunId, RunId>, db': Db, day: int) {
    var was := if day in db.stats then db.stats[day] else DailyStat(0, 0, 0);
    var got := if day in db'.stats then db'.stats[day] else DailyStat(0, 0, 0);
    && got.succeeded == was.succeeded + |EndedRows(retries, db'.runs, day, Succeeded)|
    && got.failed == was.failed + |EndedRows(retries, db'.runs, day, Failed)| && got.running == was.running
  }

  lemma RecoveredCounters(db: Db, db1: Db, retries: map<RunId, RunId>, marked: map<RunId, int>, runs: seq<Run>,
                          endings: seq<Ending>, db': Db, day: int)
    requires RowsRecovered(db, retries, marked, runs, endings, db') && RunsList(retries, runs)
    requires db1.stats == db.stats && db' == FinishAll(db1, runs, endings)
    ensures RetriesCounted(db, retries, db', day)
  {
    hide FinishAll;
    RetriesKeepColumns(db, retries, marked, runs, endings, db');
    hide RowsRecovered;
    RowsOfEnded(retries, runs, endings, db', day, true);
    RowsOfEnded(retries, runs, endings, db', day, false);
    hide EndedOn, EndedRows;
    FinishAllStats(db1, runs, endings, day);
  }

  /** The retries scheduled on the day that have the status. */
  ghost function EndedRows(retries: map<RunId, RunId>, rows: map<RunId, Run>, day: int, status: RunStatus): set<RunId> {
    set id | id in retries && id in rows && rows[id].scheduledAt / 86_400_000 == day && rows[id].status == status
  }

  lemma RowsOfEnded(retries: map<RunId, RunId>, runs: seq<Run>, endings: seq<Ending>, db': Db, day: int, ok: bool)
    requires RunsList(retries, runs) && |endings| == |runs|
    requires forall i | 0 <= i < |runs| ::
               && runs[i].id in db'.runs && db'.runs[runs[i].id].scheduledAt == runs[i].scheduledAt
               && db'.runs[runs[i].id].status == if endings[i].ok then Succeeded else Failed
    ensures EndedOn(runs, endings, day, ok) == EndedRows(retries, db'.runs, day, if ok then Succeeded else Failed)
  {
    var rows := EndedRows(retries, db'.runs, day, if ok then Succeeded else Failed);
    forall id | id in rows ensures id in EndedOn(runs, endings, day, ok) {
      var i :| 0 <= i < |runs| && runs[i].id == id;
    }
    forall id | id in EndedOn(runs, endings, day, ok) ensures id in rows {
      var i :| 0 <= i < |runs| && runs[i].scheduledAt / 86_400_000 == day && endings[i].ok == ok && runs[i].id == id;
    }
  }

  /** What a recovery leaves. */
  lemma RecoveryColumns(db: Db, retries: map<RunId, RunId>, marked: map<RunId, int>, runs: seq<Run>,
                        endings: seq<Ending>, start: int, committed: int, end: int, exec: (Task, Run) -> bool)
    requires RetriesAll(db, retries) && marked.Keys == OrphanIds(db)
    requires ListsRetries(RecoverRuns(db, retries, marked), retries, runs)
    requires start <= committed <= end && Timely(marked, endings, start, committed, end)
    requires Outcomes(exec, db.tasks, runs, endings)
    ensures RetriesExactly(db, retries)
    ensures var db' := FinishAll(RecoverRuns(db, retries, marked), runs, endings);
            && OrphansMarked(db, retries, db', start, end) && RetriesExecuted(db, retries, db', exec, end)
            && LastRunsMoved(db, retries, db') && forall day :: RetriesCounted(db, retries, db', day)
  {
    hide RetriesAll, RecoverRuns, FinishAll, Timely;
    hide RowsRecovered, RetriesExactly, OrphansMarked, RetriesExecuted, LastRunsMoved, RetriesCounted;
    var db1 := RecoverRuns(db, retries, marked);
    var db' := FinishAll(db1, runs, endings);
    RetriesAre(db, retries);
    RecoveryRuns(db, retries, marked, runs, endings);
    assert RunsList(retries, runs);
    hide ListsRetries, RunsList;
    RecoveredOrphans(db, retries, marked, runs, endings, db', start, committed, end);
    RecoveredRetries(db, retries, marked, runs, endings, db', start, committed, end, exec);
    RecoveredTasks(db, db1, retries, marked, runs, endings, db');
    forall day ensures RetriesCounted(db, retries, db', day) {
      RecoveredCounters(db, db1, retries, marked, runs, endings, db', day);
    }
  }
}

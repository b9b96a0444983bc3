/** What a Tick and a recovery do to the tables when no other goroutine intervenes and no statement fails. */
module FaultFree {
  import opened Model
  import opened Tables
  import opened Engine
  import opened EngineInvariants
  import opened DayKeys

  // ---------- one Tick ----------

  /** The run a dispatch created, its outcome, and the times at which it read the clock. */
  datatype Note = Note(id: RunId, ok: bool, finishedAt: int, computedAt: int, updatedAt: int)

  ghost function Dispatched(db: Db, task: Task, now: int, note: Note): Db {
    var run := NewRun(note.id, task.id, BySchedule, now);
    SetNextRun(FinishRun(CreateRun(db, run), run, note.ok, note.finishedAt),
               task.id, NextDue(task, note.computedAt), now, note.updatedAt)
  }

  ghost function DispatchAll(db: Db, due: seq<Task>, now: int, notes: seq<Note>): Db
    requires |notes| == |due|
    decreases |due|
  {
    if due == [] then db
    else
      var n := |due| - 1;
      Dispatched(DispatchAll(db, due[..n], now, notes[..n]), due[n], now, notes[n])
  }

  /** The notes of a Tick name new runs. */
  ghost predicate FreshNotes(db: Db, notes: seq<Note>) {
    && (forall i | 0 <= i < |notes| :: notes[i].id !in db.runs)
    && (forall i, j | 0 <= i < j < |notes| :: notes[i].id != notes[j].id)
  }

  ghost predicate Snapshot(db: Db, due: seq<Task>) {
    && (forall i | 0 <= i < |due| :: due[i].id in db.tasks && db.tasks[due[i].id] == due[i])
    && (forall i, j | 0 <= i < j < |due| :: due[i].id != due[j].id)
  }

  ghost predicate Untouched(due: seq<Task>, id: TaskId) {
    forall i | 0 <= i < |due| :: due[i].id != id
  }

  /** The row of a dispatched task. */
  ghost function TaskAfter(task: Task, now: int, note: Note): Task {
    task.(nextRunAt := NextDue(task, note.computedAt), lastRunAt := now, updatedAt := note.updatedAt)
  }

  /** The row of the run that was dispatched. */
  function RunAfter(task: Task, now: int, note: Note): Run {
    NewRun(note.id, task.id, BySchedule, now).(status := Outcome(note.ok), finishedAt := note.finishedAt)
  }

  ghost predicate TasksDispatched(db: Db, due: seq<Task>, now: int, notes: seq<Note>, db': Db)
    requires |notes| == |due|
  {
    && db'.tasks.Keys == db.tasks.Keys
    && (forall id | id in db.tasks && Untouched(due, id) :: db'.tasks[id] == db.tasks[id])
    && (forall i | 0 <= i < |due| :: due[i].id in db'.tasks && db'.tasks[due[i].id] == TaskAfter(due[i], now, notes[i]))
  }

  ghost function NoteIds(notes: seq<Note>): set<RunId> {
    set i | 0 <= i < |notes| :: notes[i].id
  }

  ghost predicate RunsDispatched(db: Db, due: seq<Task>, now: int, notes: seq<Note>, db': Db)
    requires |notes| == |due|
  {
    && db'.runs.Keys == db.runs.Keys + NoteIds(notes)
    && (forall id | id in db.runs :: id in db'.runs && db'.runs[id] == db.runs[id])
    && (forall i | 0 <= i < |notes| ::
          notes[i].id in db'.runs && db'.runs[notes[i].id] == RunAfter(due[i], now, notes[i]))
  }

  lemma DispatchedTask(db: Db, task: Task, now: int, note: Note)
    requires task.id in db.tasks && db.tasks[task.id] == task
    ensures Dispatched(db, task, now, note).tasks == db.tasks[task.id := TaskAfter(task, now, note)]
  {
    hide NextDue, DayOfMs;
  }

  lemma DispatchedRun(db: Db, task: Task, now: int, note: Note)
    requires note.id !in db.runs
    ensures Dispatched(db, task, now, note).runs == db.runs[note.id := RunAfter(task, now, note)]
  {
    hide NextDue, DayOfMs;
  }

  lemma DispatchedStat(db: Db, task: Task, now: int, note: Note, day: int)
    ensures StatOf(Dispatched(db, task, now, note), day) ==
            var st := StatOf(db, day);
            if day != DayOfMs(now) then st
            else if note.ok then st.(succeeded := st.succeeded + 1) else st.(failed := st.failed + 1)
  {
    hide NextDue, DayOfMs;
  }

  /** A Tick changes the tasks it found due, and no other. */
  lemma {:induction false} DispatchAllTasks(db: Db, due: seq<Task>, now: int, notes: seq<Note>)
    requires |notes| == |due| && Snapshot(db, due)
    ensures TasksDispatched(db, due, now, notes, DispatchAll(db, due, now, notes))
    decreases |due|
  {
    hide NextDue, Dispatched;
    if due != [] {
      var n := |due| - 1;
      DispatchAllTasks(db, due[..n], now, notes[..n]);
      var before := DispatchAll(db, due[..n], now, notes[..n]);
      OneMoreTaskDispatched(db, due, now, notes, before, DispatchAll(db, due, now, notes));
    }
  }

  lemma UntouchedByPrefix(due: seq<Task>, id: TaskId)
    requires due != [] && Untouched(due, id)
    ensures due[|due| - 1].id != id && Untouched(due[..|due| - 1], id)
  {
  }

  lemma OneMoreTaskDispatched(db: Db, due: seq<Task>, now: int, notes: seq<Note>, before: Db, after: Db)
    requires due != [] && |notes| == |due| && Snapshot(db, due)
    requires TasksDispatched(db, due[..|due| - 1], now, notes[..|due| - 1], before)
    requires after == Dispatched(before, due[|due| - 1], now, notes[|due| - 1])
    ensures TasksDispatched(db, due, now, notes, after)
  {
    hide NextDue, Dispatched, TaskAfter;
    var n := |due| - 1;
    assert Untouched(due[..n], due[n].id);
    hide Untouched;
    DispatchedTask(before, due[n], now, notes[n]);
    forall id | id in db.tasks && Untouched(due, id) ensures after.tasks[id] == db.tasks[id] {
      UntouchedByPrefix(due, id);
    }
    forall i | 0 <= i < n
      ensures due[i].id in after.tasks && after.tasks[due[i].id] == TaskAfter(due[i], now, notes[i])
    {
      assert notes[..n][i] == notes[i] && due[..n][i] == due[i];
    }
  }

  /** It adds one finished run for each of them, and leaves the other runs alone. */
  lemma {:induction false} DispatchAllRuns(db: Db, due: seq<Task>, now: int, notes: seq<Note>)
    requires |notes| == |due| && FreshNotes(db, notes)
    ensures RunsDispatched(db, due, now, notes, DispatchAll(db, due, now, notes))
    decreases |due|
  {
    hide NextDue, Dispatched;
    if due != [] {
      var n := |due| - 1;
      DispatchAllRuns(db, due[..n], now, notes[..n]);
      var before := DispatchAll(db, due[..n], now, notes[..n]);
      OneMoreRunDispatched(db, due, now, notes, before, DispatchAll(db, due, now, notes));
    }
  }

  lemma OneMoreRunDispatched(db: Db, due: seq<Task>, now: int, notes: seq<Note>, before: Db, after: Db)
    requires due != [] && |notes| == |due| && FreshNotes(db, notes)
    requires RunsDispatched(db, due[..|due| - 1], now, notes[..|due| - 1], before)
    requires after == Dispatched(before, due[|due| - 1], now, notes[|due| - 1])
    ensures RunsDispatched(db, due, now, notes, after)
  {
    hide NextDue, Dispatched, RunAfter;
    var n := |due| - 1;
    var note := notes[n];
    assert notes == notes[..n] + [note];
    MoreNoteIds(notes[..n], note);
    assert note.id !in NoteIds(notes[..n]);
    DispatchedRun(before, due[n], now, note);
    forall i | 0 <= i < n
      ensures notes[i].id in after.runs && after.runs[notes[i].id] == RunAfter(due[i], now, notes[i])
    {
      assert notes[..n][i] == notes[i] && due[..n][i] == due[i];
    }
  }

  lemma MoreNoteIds(notes: seq<Note>, note: Note)
    ensures NoteIds(notes + [note]) == NoteIds(notes) + {note.id}
  {
    assert forall id | id in NoteIds(notes) :: id in NoteIds(notes + [note]) by {
      forall id | id in NoteIds(notes) ensures id in NoteIds(notes + [note]) {
        var i :| 0 <= i < |notes| && notes[i].id == id;
        assert (notes + [note])[i].id == id;
      }
    }
    assert (notes + [note])[|notes|] == note;
  }

  ghost function Successes(notes: seq<Note>): nat
    decreases |notes|
  {
    if notes == [] then 0 else Successes(notes[..|notes| - 1]) + (if notes[|notes| - 1].ok then 1 else 0)
  }

  lemma {:induction false} SuccessesAtMost(notes: seq<Note>)
    ensures Successes(notes) <= |notes|
    decreases |notes|
  {
    if notes != [] {
      SuccessesAtMost(notes[..|notes| - 1]);
    }
  }

  /** It counts every outcome once, on the day of the Tick. */
  lemma {:induction false} DispatchAllStats(db: Db, due: seq<Task>, now: int, notes: seq<Note>, day: int)
    requires |notes| == |due|
    ensures var st, st' := StatOf(db, day), StatOf(DispatchAll(db, due, now, notes), day);
            if day != DayOfMs(now) then st' == st
            else
              && st'.succeeded == st.succeeded + Successes(notes)
              && st'.failed == st.failed + |notes| - Successes(notes)
              && st'.running == st.running
    decreases |due|
  {
    hide NextDue, Dispatched, DayOfMs, StatOf;
    SuccessesAtMost(notes);
    if due != [] {
      var n := |due| - 1;
      DispatchAllStats(db, due[..n], now, notes[..n], day);
      DispatchedStat(DispatchAll(db, due[..n], now, notes[..n]), due[n], now, notes[n], day);
    }
  }

  /** The runs of a task that are in the second table only. */
  ghost function NewRunsOf(db: Db, db': Db, task: TaskId): set<RunId> {
    set id | id in db'.runs && id !in db.runs && db'.runs[id].taskId == task
  }

  /** What a Tick at the time now promises. */
  ghost predicate TickResult(db: Db, now: int, db': Db) {
    && db'.tasks.Keys == db.tasks.Keys
    && (forall id | id in db.tasks && id !in DueIds(db, now) ::
          db'.tasks[id] == db.tasks[id] && NewRunsOf(db, db', id) == {})
    && (forall id | id in DueIds(db, now) :: id in db'.tasks && Advanced(db.tasks[id], now, db'.tasks[id]))
    && (forall id | id in DueIds(db, now) :: exists r :: NewRunsOf(db, db', id) == {r} && RanOnSchedule(db', r, now))
    && (forall id | id in db.runs :: id in db'.runs && db'.runs[id] == db.runs[id])
    && (forall id | id in db'.runs && id !in db.runs :: db'.runs[id].taskId in DueIds(db, now))
    && DueIds(db', now) == {}
  }

  /** The task's schedule has moved on: a cron task to a later matching minute or to none, any other task to none. */
  ghost predicate Advanced(t: Task, now: int, t': Task) {
    && t' == t.(nextRunAt := t'.nextRunAt, lastRunAt := now, updatedAt := t'.updatedAt)
    && (t'.nextRunAt == 0 || (t.specType == SpecCron && now < t'.nextRunAt && IsCronTime(t.cronExpr, t'.nextRunAt)))
  }

  ghost predicate RanOnSchedule(db: Db, id: RunId, now: int) {
    && id in db.runs && db.runs[id].trigger == BySchedule && db.runs[id].attempt == 1
    && db.runs[id].scheduledAt == now && db.runs[id].startedAt == now
    && (db.runs[id].status == Succeeded || db.runs[id].status == Failed)
  }

  lemma NextDueAdvances(t: Task, now: int, note: Note)
    requires now <= note.computedAt
    ensures Advanced(t, now, TaskAfter(t, now, note))
  {
    hide IsCronTime;
    NextCronIsLater(t, note.computedAt);
  }

  lemma AdvancedIsNotDue(t: Task, now: int, t': Task)
    requires Advanced(t, now, t')
    ensures !IsDue(t', now)
  {
    hide IsCronTime;
  }

  lemma IsSnapshot(db: Db, now: int, due: seq<Task>)
    requires IsDueList(db, now, due)
    ensures Snapshot(db, due)
    ensures forall id | id in db.tasks :: id in DueIds(db, now) <==> !Untouched(due, id)
  {
    hide IsDue;
  }

  /** A Tick that dispatches the due tasks keeps its promise. */
  lemma TickKeepsPromise(db: Db, now: int, due: seq<Task>, notes: seq<Note>)
    requires IsDueList(db, now, due) && |notes| == |due| && FreshNotes(db, notes)
    requires forall i | 0 <= i < |notes| :: now <= notes[i].computedAt
    ensures TickResult(db, now, DispatchAll(db, due, now, notes))
  {
    hide NextDue, DispatchAll, IsDueList, Advanced;
    var db' := DispatchAll(db, due, now, notes);
    IsSnapshot(db, now, due);
    DispatchAllTasks(db, due, now, notes);
    DispatchAllRuns(db, due, now, notes);
    hide TasksDispatched, RunsDispatched;
    forall id | id in DueIds(db, now)
      ensures id in db'.tasks && Advanced(db.tasks[id], now, db'.tasks[id])
      ensures exists r :: NewRunsOf(db, db', id) == {r} && RanOnSchedule(db', r, now)
    {
      DueTaskAdvances(db, now, due, notes, db', id);
      DueTaskRunsOnce(db, now, due, notes, db', id);
    }
    OthersStay(db, now, due, notes, db');
    NothingStaysDue(db, now, db');
  }

  lemma DueTaskAdvances(db: Db, now: int, due: seq<Task>, notes: seq<Note>, db': Db, id: TaskId)
    requires |notes| == |due| && TasksDispatched(db, due, now, notes, db') && Snapshot(db, due)
    requires forall i | 0 <= i < |notes| :: now <= notes[i].computedAt
    requires !Untouched(due, id)
    ensures id in db.tasks && id in db'.tasks && Advanced(db.tasks[id], now, db'.tasks[id])
  {
    hide NextDue, Advanced, TaskAfter;
    var i :| 0 <= i < |due| && due[i].id == id;
    NextDueAdvances(due[i], now, notes[i]);
  }

  lemma DueTaskRunsOnce(db: Db, now: int, due: seq<Task>, notes: seq<Note>, db': Db, id: TaskId)
    requires |notes| == |due| && RunsDispatched(db, due, now, notes, db') && Snapshot(db, due) && FreshNotes(db, notes)
    requires !Untouched(due, id)
    ensures exists r :: NewRunsOf(db, db', id) == {r} && RanOnSchedule(db', r, now)
  {
    var i :| 0 <= i < |due| && due[i].id == id;
    assert NewRunsOf(db, db', id) == {notes[i].id};
    assert RanOnSchedule(db', notes[i].id, now);
  }

  lemma OthersStay(db: Db, now: int, due: seq<Task>, notes: seq<Note>, db': Db)
    requires |notes| == |due| && TasksDispatched(db, due, now, notes, db') && RunsDispatched(db, due, now, notes, db')
    requires forall id | id in db.tasks :: id in DueIds(db, now) <==> !Untouched(due, id)
    requires Snapshot(db, due)
    ensures db'.tasks.Keys == db.tasks.Keys
    ensures forall id | id in db.tasks && id !in DueIds(db, now) :: db'.tasks[id] == db.tasks[id]
                && NewRunsOf(db, db', id) == {}
    ensures forall id | id in db.runs :: id in db'.runs && db'.runs[id] == db.runs[id]
    ensures forall id | id in db'.runs && id !in db.runs :: db'.runs[id].taskId in DueIds(db, now)
  {
    hide NextDue, IsDue;
    forall id | id in db'.runs && id !in db.runs ensures db'.runs[id].taskId in DueIds(db, now) {
      var i :| 0 <= i < |notes| && notes[i].id == id;
      assert due[i].id in db.tasks && !Untouched(due, due[i].id);
    }
  }

  lemma NothingStaysDue(db: Db, now: int, db': Db)
    requires db'.tasks.Keys == db.tasks.Keys
    requires forall id | id in db.tasks && id !in DueIds(db, now) :: db'.tasks[id] == db.tasks[id]
    requires forall id | id in DueIds(db, now) :: id in db'.tasks && Advanced(db.tasks[id], now, db'.tasks[id])
    ensures DueIds(db', now) == {}
  {
    hide Advanced;
    forall id | id in db'.tasks ensures !IsDue(db'.tasks[id], now) {
      if id in DueIds(db, now) {
        AdvancedIsNotDue(db.tasks[id], now, db'.tasks[id]);
      }
    }
  }

  lemma ListedTasksAreDue(db: Db, now: int, due: seq<Task>)
    requires IsDueList(db, now, due)
    ensures due != [] ==> DueIds(db, now) != {}
  {
    if due != [] {
      assert due[0].id in DueIds(db, now);
    }
  }

  /** A second Tick at the same time finds nothing to dispatch. */
  lemma RepeatedTick(db: Db, now: int, db': Db, due: seq<Task>)
    requires TickResult(db, now, db') && IsDueList(db', now, due)
    ensures due == []
  {
    hide Advanced, RanOnSchedule, IsDue, IsDueList;
    ListedTasksAreDue(db', now, due);
  }

  // ---------- recovery ----------

  /** The outcome of an execution and the time it ended. */
  datatype Ending = Ending(ok: bool, at: int)

  ghost function FinishAll(db: Db, runs: seq<Run>, endings: seq<Ending>): Db
    requires |endings| == |runs|
    decreases |runs|
  {
    if runs == [] then db
    else
      var n := |runs| - 1;
      FinishRun(FinishAll(db, runs[..n], endings[..n]), runs[n], endings[n].ok, endings[n].at)
  }

  ghost predicate DistinctRuns(runs: seq<Run>) {
    forall i, j | 0 <= i < j < |runs| :: runs[i].id != runs[j].id
  }

  function Ended(run: Run, ending: Ending): Run {
    run.(status := Outcome(ending.ok), finishedAt := ending.at)
  }

  /** A run that is created and executed at once adds one row that has ended, counts on its day,
      and is its task's last. */
  lemma CreateAndFinish(db: Db, run: Run, ok: bool, at: int)
    requires run.id !in db.runs
    ensures var db' := FinishRun(CreateRun(db, run), run, ok, at);
            && db'.runs == db.runs[run.id := run.(status := if ok then Succeeded else Failed, finishedAt := at)]
            && db'.tasks == (if run.taskId !in db.tasks then db.tasks
                             else db.tasks[run.taskId := db.tasks[run.taskId].(lastRunAt := run.scheduledAt)])
    ensures var day := run.scheduledAt / 86_400_000;
            var was := if day in db.stats then db.stats[day] else DailyStat(0, 0, 0);
            FinishRun(CreateRun(db, run), run, ok, at).stats
            == db.stats[day := if ok then was.(succeeded := was.succeeded + 1) else was.(failed := was.failed + 1)]
  {
    OutcomeCommitted(CreateRun(db, run), run, ok, at);
    hide FinishRun;
  }

  /** The transaction of executeRun: the run's row has ended, its task was last run then, and one counter of the UTC day
      on which it was scheduled has grown by one. */
  lemma OutcomeCommitted(db: Db, run: Run, ok: bool, at: int)
    ensures var db' := FinishRun(db, run, ok, at);
            && db'.runs == (if run.id !in db.runs then db.runs
                            else db.runs[run.id := db.runs[run.id].(status := if ok then Succeeded else Failed,
                                                                    startedAt := run.startedAt, finishedAt := at)])
            && db'.tasks == (if run.taskId !in db.tasks then db.tasks
                             else db.tasks[run.taskId := db.tasks[run.taskId].(lastRunAt := run.scheduledAt)])
    ensures var day := run.scheduledAt / 86_400_000;
            var was := if day in db.stats then db.stats[day] else DailyStat(0, 0, 0);
            FinishRun(db, run, ok, at).stats
            == db.stats[day := if ok then was.(succeeded := was.succeeded + 1) else was.(failed := was.failed + 1)]
  {
  }

  ghost predicate RunsFinished(db: Db, runs: seq<Run>, endings: seq<Ending>, db': Db)
    requires |endings| == |runs|
  {
    && db'.runs.Keys == db.runs.Keys
    && (forall id | id in db.runs && (forall i | 0 <= i < |runs| :: runs[i].id != id) :: db'.runs[id] == db.runs[id])
    && (forall i | 0 <= i < |runs| :: runs[i].id in db'.runs
          && db'.runs[runs[i].id] == Ended(runs[i], endings[i]))
  }

  /** Executions finish the rows of their runs, and no others. */
  lemma {:induction false} FinishAllRuns(db: Db, runs: seq<Run>, endings: seq<Ending>)
    requires |endings| == |runs| && DistinctRuns(runs)
    requires forall i | 0 <= i < |runs| :: runs[i].id in db.runs && db.runs[runs[i].id] == runs[i]
    ensures RunsFinished(db, runs, endings, FinishAll(db, runs, endings))
    decreases |runs|
  {
    hide FinishRun;
    if runs != [] {
      hide RunsFinished;
      var n := |runs| - 1;
      FinishAllRuns(db, runs[..n], endings[..n]);
      OneMoreRunFinished(db, runs, endings, FinishAll(db, runs[..n], endings[..n]), FinishAll(db, runs, endings));
    }
  }

  lemma OneMoreRunFinished(db: Db, runs: seq<Run>, endings: seq<Ending>, before: Db, after: Db)
    requires runs != [] && |endings| == |runs| && DistinctRuns(runs)
    requires forall i | 0 <= i < |runs| :: runs[i].id in db.runs && db.runs[runs[i].id] == runs[i]
    requires RunsFinished(db, runs[..|runs| - 1], endings[..|runs| - 1], before)
    requires after == FinishRun(before, runs[|runs| - 1], endings[|runs| - 1].ok, endings[|runs| - 1].at)
    ensures RunsFinished(db, runs, endings, after)
  {
    hide FinishRun, RunsFinished;
    var n := |runs| - 1;
    LastRowStays(db, runs, endings, before);
    FinishRows(before, runs[n], endings[n].ok, endings[n].at);
    ExtendFinished(db, runs, endings, before, after);
  }

  lemma LastRowStays(db: Db, runs: seq<Run>, endings: seq<Ending>, before: Db)
    requires runs != [] && |endings| == |runs| && DistinctRuns(runs)
    requires runs[|runs| - 1].id in db.runs
    requires RunsFinished(db, runs[..|runs| - 1], endings[..|runs| - 1], before)
    ensures runs[|runs| - 1].id in before.runs && before.runs[runs[|runs| - 1].id] == db.runs[runs[|runs| - 1].id]
  {
  }

  lemma ExtendFinished(db: Db, runs: seq<Run>, endings: seq<Ending>, before: Db, after: Db)
    requires runs != [] && |endings| == |runs| && DistinctRuns(runs) && runs[|runs| - 1].id in db.runs
    requires RunsFinished(db, runs[..|runs| - 1], endings[..|runs| - 1], before)
    requires after.runs == before.runs[runs[|runs| - 1].id := Ended(runs[|runs| - 1], endings[|runs| - 1])]
    ensures RunsFinished(db, runs, endings, after)
  {
    hide Ended;
    var n := |runs| - 1;
    assert forall i | 0 <= i < n :: runs[..n][i] == runs[i] && endings[..n][i] == endings[i];
    forall id | id in db.runs && (forall i | 0 <= i < |runs| :: runs[i].id != id) ensures after.runs[id]
        == db.runs[id] {
      assert runs[n].id != id;
    }
    forall i | 0 <= i < n ensures after.runs[runs[i].id] == Ended(runs[i], endings[i]) {
      assert before.runs[runs[..n][i].id] == Ended(runs[i], endings[i]);
    }
  }

  /** What a recovery promises: every running row is an orphan now,
      each orphan whose task exists and has budget left has
      one retry that counts one more attempt and has ended, there is no other new row, and no other row has changed. */
  ghost predicate RecoveryResult(db: Db, retries: map<RunId, RunId>, db': Db) {
    && RetriesAll(db, retries)
    && db'.runs.Keys == db.runs.Keys + retries.Keys
    && (forall id | id in OrphanIds(db) :: id in db'.runs
          && db'.runs[id] == db.runs[id].(status := Orphaned, finishedAt := db'.runs[id].finishedAt))
    && (forall id | id in db.runs && id !in OrphanIds(db) :: id in db'.runs && db'.runs[id] == db.runs[id])
    && (forall id | id in retries ::
          id in db'.runs && RetryEnded(db.runs[retries[id]], db'.runs[retries[id]], db'.runs[id]))
    && OrphanIds(db') == {}
  }

  /** after is orig once it has been marked. */
  ghost predicate RetryEnded(orig: Run, after: Run, retry: Run) {
    && retry.taskId == orig.taskId && retry.attempt == orig.attempt + 1 && retry.trigger == ByRetry
    && retry.scheduledAt == after.finishedAt
    && (retry.status == Succeeded || retry.status == Failed)
  }

  /** The new rows of a recovery, in the order of their execution. */
  ghost predicate ListsRetries(db: Db, retries: map<RunId, RunId>, runs: seq<Run>) {
    && DistinctRuns(runs)
    && (forall i | 0 <= i < |runs| :: runs[i].id in retries && runs[i].id in db.runs && db.runs[runs[i].id] == runs[i])
    && (forall id | id in retries :: exists i :: 0 <= i < |runs| && runs[i].id == id)
  }

  /** The tables while the transaction of a recovery is under way: the orphans in marked have been dealt with. */
  ghost predicate PartlyRecovered(db0: Db, retries: map<RunId, RunId>, marked: map<RunId, int>, db: Db) {
    RowsMarked(db0, retries.Keys, marked, db) && RetriesMade(db0, retries, marked, db)
  }

  ghost predicate RowsMarked(db0: Db, added: set<RunId>, marked: map<RunId, int>, db: Db) {
    && db.tasks == db0.tasks && db.stats == db0.stats && marked.Keys <= OrphanIds(db0)
    && db0.runs.Keys !! added && db.runs.Keys == db0.runs.Keys + added
    && (forall id | id in db0.runs :: db.runs[id] == MarkedRow(db0.runs[id], marked))
  }

  ghost predicate RetriesMade(db0: Db, retries: map<RunId, RunId>, marked: map<RunId, int>, db: Db) {
    && (forall id | id in retries :: retries[id] in RetriableIds(db0) && retries[id] in marked
          && id in db.runs && db.runs[id] == RetryOf(db0.runs[retries[id]], id, marked[retries[id]]))
    && (forall o | o in RetriableIds(db0) && o in marked :: exists id :: id in retries && retries[id] == o)
    && (forall i, j | i in retries && j in retries && retries[i] == retries[j] :: i == j)
  }

  function MarkedRow(run: Run, marked: map<RunId, int>): Run {
    if run.id in marked then run.(status := Orphaned, finishedAt := marked[run.id]) else run
  }

  ghost predicate Keyed(runs: map<RunId, Run>) {
    forall id | id in runs :: runs[id].id == id
  }

  /** The next orphan is marked; it is not retried. */
  lemma MarkOrphan(db0: Db, retries: map<RunId, RunId>, marked: map<RunId, int>, db: Db, o: RunId, at: int)
    requires PartlyRecovered(db0, retries, marked, db) && Keyed(db0.runs)
    requires o in OrphanIds(db0) && o !in RetriableIds(db0) && o !in marked
    ensures PartlyRecovered(db0, retries, marked[o := at], UpdateRunStatus(db, o, Orphaned, db0.runs[o].startedAt, at))
  {
    hide RetryOf;
  }

  /** The next orphan is marked and gets its retry. */
  lemma RetryOrphan(db0: Db, retries: map<RunId, RunId>, marked: map<RunId, int>, db: Db, o: RunId, at: int, id: RunId)
    requires PartlyRecovered(db0, retries, marked, db) && Keyed(db0.runs)
    requires o in RetriableIds(db0) && o !in marked && id !in db.runs
    ensures var db1 := UpdateRunStatus(db, o, Orphaned, db0.runs[o].startedAt, at);
            PartlyRecovered(db0, retries[id := o], marked[o := at], CreateRun(db1, RetryOf(db0.runs[o], id, at)))
  {
    var db2 := CreateRun(UpdateRunStatus(db, o, Orphaned, db0.runs[o].startedAt, at), RetryOf(db0.runs[o], id, at));
    assert RowsMarked(db0, retries[id := o].Keys, marked[o := at], db2) by {
      hide RetriesMade;
    }
    RetryMade(db0, retries, marked, db, o, at, id, db2);
  }

  lemma RetryMade(db0: Db, retries: map<RunId, RunId>, marked: map<RunId, int>, db: Db, o: RunId, at: int, id: RunId,
                  db2: Db)
    requires RetriesMade(db0, retries, marked, db) && o in RetriableIds(db0) && o !in marked && id !in db.runs
    requires id in db2.runs && db2.runs[id] == RetryOf(db0.runs[o], id, at)
    requires forall r | r in retries :: r in db2.runs && (r in db.runs ==> db2.runs[r] == db.runs[r])
    ensures RetriesMade(db0, retries[id := o], marked[o := at], db2)
  {
    hide RetryOf;
    var retries' := retries[id := o];
    forall p | p in RetriableIds(db0) && p in marked[o := at] ensures exists i :: i in retries' && retries'[i] == p {
      if p == o {
        assert retries'[id] == o;
      } else {
        var i :| i in retries && retries[i] == p;
        assert retries'[i] == p;
      }
    }
  }

  lemma ListStays(db: Db, db': Db, retries: map<RunId, RunId>, runs: seq<Run>)
    requires ListsRetries(db, retries, runs)
    requires forall id | id in retries && id in db.runs :: id in db'.runs && db'.runs[id] == db.runs[id]
    ensures ListsRetries(db', retries, runs)
  {
  }

  lemma ListGrows(db: Db, retries: map<RunId, RunId>, runs: seq<Run>, r: Run, o: RunId)
    requires ListsRetries(db, retries, runs) && r.id !in retries && r.id in db.runs && db.runs[r.id] == r
    ensures ListsRetries(db, retries[r.id := o], runs + [r])
  {
    var runs', retries' := runs + [r], retries[r.id := o];
    forall id | id in retries' ensures exists i :: 0 <= i < |runs'| && runs'[i].id == id {
      if id == r.id {
        assert runs'[|runs|].id == id;
      } else {
        var i :| 0 <= i < |runs| && runs[i].id == id;
        assert runs'[i].id == id;
      }
    }
  }

  lemma ListIsDistinct(db: Db, retries: map<RunId, RunId>, runs: seq<Run>)
    requires ListsRetries(db, retries, runs)
    ensures DistinctRuns(runs)
  {
  }

  lemma NothingListed(db: Db)
    ensures ListsRetries(db, map[], [])
  {
  }

  lemma OldRowsAreNoRetries(db0: Db, retries: map<RunId, RunId>, marked: map<RunId, int>, db: Db)
    requires PartlyRecovered(db0, retries, marked, db)
    ensures forall id | id in db0.runs :: id !in retries
    ensures forall id | id in retries :: id in db.runs
  {
    hide RetriesMade, MarkedRow;
  }

  /** One turn of the recovery loop for an orphan that is not retried. */
  lemma MarkOne(db0: Db, retries: map<RunId, RunId>, marked: map<RunId, int>, db: Db, runs: seq<Run>, o: Run, at: int)
    requires PartlyRecovered(db0, retries, marked, db) && ListsRetries(db, retries, runs) && Keyed(db0.runs)
    requires o.id in OrphanIds(db0) && db0.runs[o.id] == o && o.id !in RetriableIds(db0) && o.id !in marked
    ensures var db1 := UpdateRunStatus(db, o.id, Orphaned, o.startedAt, at);
            PartlyRecovered(db0, retries, marked[o.id := at], db1) && ListsRetries(db1, retries, runs)
  {
    var db1 := UpdateRunStatus(db, o.id, Orphaned, o.startedAt, at);
    MarkOrphan(db0, retries, marked, db, o.id, at);
    OldRowsAreNoRetries(db0, retries, marked, db);
    hide PartlyRecovered, ListsRetries;
    assert forall id | id in retries && id in db.runs :: id in db1.runs && db1.runs[id] == db.runs[id];
    hide UpdateRunStatus;
    ListStays(db, db1, retries, runs);
  }

  /** One turn of the recovery loop for an orphan that is retried. */
  lemma RetryOne(db0: Db, retries: map<RunId, RunId>, marked: map<RunId, int>, db: Db, runs: seq<Run>, o: Run,
                 at: int, id: RunId)
    requires PartlyRecovered(db0, retries, marked, db) && ListsRetries(db, retries, runs) && Keyed(db0.runs)
    requires o.id in RetriableIds(db0) && db0.runs[o.id] == o && o.id !in marked && id !in db.runs
    ensures var r := RetryOf(o, id, at);
            var db2 := CreateRun(UpdateRunStatus(db, o.id, Orphaned, o.startedAt, at), r);
            && PartlyRecovered(db0, retries[id := o.id], marked[o.id := at], db2)
            && ListsRetries(db2, retries[id := o.id], runs + [r])
  {
    var r := RetryOf(o, id, at);
    var db2 := CreateRun(UpdateRunStatus(db, o.id, Orphaned, o.startedAt, at), r);
    RetryOrphan(db0, retries, marked, db, o.id, at, id);
    OldRowsAreNoRetries(db0, retries, marked, db);
    hide PartlyRecovered, ListsRetries;
    assert id !in retries && forall i | i in retries && i in db.runs :: i in db2.runs && db2.runs[i] == db.runs[i];
    assert id in db2.runs && db2.runs[id] == r;
    hide UpdateRunStatus, CreateRun;
    ListStays(db, db2, retries, runs);
    ListGrows(db2, retries, runs, r, o.id);
  }

  lemma FinishNone(db: Db)
    ensures FinishAll(db, [], []) == db
  {
  }

  lemma FinishOne(db: Db, runs: seq<Run>, endings: seq<Ending>, run: Run, ending: Ending)
    requires |endings| == |runs|
    ensures FinishAll(db, runs + [run], endings + [ending])
                == FinishRun(FinishAll(db, runs, endings), run, ending.ok, ending.at)
  {
    hide FinishRun;
    assert (runs + [run])[..|runs|] == runs && (endings + [ending])[..|endings|] == endings;
  }

  lemma NothingRecoveredYet(db: Db)
    ensures PartlyRecovered(db, map[], map[], db)
  {
  }

  /** When all orphans have been dealt with, the transaction is the one that Recover events stand for. */
  lemma AllRecovered(db0: Db, retries: map<RunId, RunId>, marked: map<RunId, int>, db: Db)
    requires PartlyRecovered(db0, retries, marked, db) && Keyed(db0.runs) && marked.Keys == OrphanIds(db0)
    ensures RetriesAll(db0, retries) && db == RecoverRuns(db0, retries, marked)
  {
    hide RetryOf;
    assert db.runs == RecoverRuns(db0, retries, marked).runs;
  }

  lemma RecoveryKeepsPromise(db: Db, retries: map<RunId, RunId>, marked: map<RunId, int>, runs: seq<Run>,
                             endings: seq<Ending>)
    requires RetriesAll(db, retries) && marked.Keys == OrphanIds(db)
    requires |endings| == |runs| && ListsRetries(RecoverRuns(db, retries, marked), retries, runs)
    ensures RecoveryResult(db, retries, FinishAll(RecoverRuns(db, retries, marked), runs, endings))
  {
    hide RecoverRuns, FinishAll, RetriesAll, RetryEnded, ListsRetries, RunsFinished;
    var db1 := RecoverRuns(db, retries, marked);
    var db2 := FinishAll(db1, runs, endings);
    RetriesFinish(db1, retries, runs, endings);
    OldRowsRecovered(db, retries, marked, runs, endings, db1, db2);
    RetriesEnd(db, retries, marked, runs, endings, db1, db2);
  }

  lemma OldRowsRecovered(db: Db, retries: map<RunId, RunId>, marked: map<RunId, int>, runs: seq<Run>,
                         endings: seq<Ending>, db1: Db, db2: Db)
    requires RetriesAll(db, retries) && marked.Keys == OrphanIds(db) && db1 == RecoverRuns(db, retries, marked)
    requires |endings| == |runs| && ListsRetries(db1, retries, runs) && RunsFinished(db1, runs, endings, db2)
    ensures db2.runs.Keys == db.runs.Keys + retries.Keys && OrphanIds(db2) == {}
    ensures forall id | id in db.runs ::
              if id !in OrphanIds(db) then db2.runs[id] == db.runs[id]
              else db2.runs[id] == db.runs[id].(status := Orphaned, finishedAt := db2.runs[id].finishedAt)
  {
    hide RecoverRuns, RetriesAll, ListsRetries, RunsFinished, RetryOf;
    RecoveredRows(db, retries, marked);
    OtherRowsStay(db1, retries, runs, endings, db2);
    RetriesEnd(db, retries, marked, runs, endings, db1, db2);
    NothingRuns(db1, retries, db2, db.runs);
    OrphansAreNoRetries(db, retries);
  }

  lemma RetriesFinish(db1: Db, retries: map<RunId, RunId>, runs: seq<Run>, endings: seq<Ending>)
    requires |endings| == |runs| && ListsRetries(db1, retries, runs)
    ensures RunsFinished(db1, runs, endings, FinishAll(db1, runs, endings))
  {
    hide FinishAll, RunsFinished;
    FinishAllRuns(db1, runs, endings);
  }

  lemma OtherRowsStay(db1: Db, retries: map<RunId, RunId>, runs: seq<Run>, endings: seq<Ending>, db2: Db)
    requires |endings| == |runs| && ListsRetries(db1, retries, runs) && RunsFinished(db1, runs, endings, db2)
    ensures db2.runs.Keys == db1.runs.Keys
    ensures forall id | id in db1.runs && id !in retries :: db2.runs[id] == db1.runs[id]
  {
  }

  lemma RetriesEnd(db: Db, retries: map<RunId, RunId>, marked: map<RunId, int>, runs: seq<Run>, endings: seq<Ending>,
                   db1: Db, db2: Db)
    requires RetriesAll(db, retries) && marked.Keys == OrphanIds(db) && db1 == RecoverRuns(db, retries, marked)
    requires |endings| == |runs| && ListsRetries(db1, retries, runs) && RunsFinished(db1, runs, endings, db2)
    ensures forall id | id in retries ::
              id in db2.runs && retries[id] in db.runs && retries[id] in db2.runs
              && RetryEnded(db.runs[retries[id]], db2.runs[retries[id]], db2.runs[id])
  {
    hide RecoverRuns;
    RecoveredRows(db, retries, marked);
    OrphansAreNoRetries(db, retries);
    hide RetriesAll;
    OtherRowsStay(db1, retries, runs, endings, db2);
    forall id | id in retries
      ensures id in db2.runs && RetryEnded(db.runs[retries[id]], db2.runs[retries[id]], db2.runs[id])
    {
      var i :| 0 <= i < |runs| && runs[i].id == id;
      assert db2.runs[id] == Ended(runs[i], endings[i]);
    }
  }

  lemma OrphansAreNoRetries(db: Db, retries: map<RunId, RunId>)
    requires RetriesAll(db, retries)
    ensures forall id | id in retries :: retries[id] in db.runs && id !in db.runs && retries[id] !in retries
  {
  }

  lemma NothingRuns(db1: Db, retries: map<RunId, RunId>, db2: Db, before: map<RunId, Run>)
    requires OrphanIds(db1) == {} && db2.runs.Keys == db1.runs.Keys == before.Keys + retries.Keys
    requires forall id | id in db1.runs && id !in retries :: db2.runs[id] == db1.runs[id]
    requires forall id | id in retries :: id in db2.runs && db2.runs[id].status != Running
    ensures OrphanIds(db2) == {}
  {
  }

  lemma NoOrphansNoRetries(db: Db, retries: map<RunId, RunId>)
    requires RetriesAll(db, retries) && OrphanIds(db) == {}
    ensures retries == map[]
  {
    assert RetriableIds(db) == {};
    assert forall id :: id !in retries;
  }

  /** Recovering again finds nothing to do. */
  lemma SecondRecovery(db: Db, retries: map<RunId, RunId>, db': Db, retries': map<RunId, RunId>,
                       marked: map<RunId, int>)
    requires RecoveryResult(db, retries, db')
    requires RetriesAll(db', retries') && marked.Keys == OrphanIds(db')
    ensures retries' == map[] && RecoverRuns(db', retries', marked) == db'
  {
    NoOrphansNoRetries(db', retries');
    assert RecoverRuns(db', retries', marked).runs == db'.runs;
  }
}

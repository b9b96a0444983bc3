/** The Store of internal/store over its three tables. Every method either commits its change or makes none. */
module Store {
  import opened Prelude
  import opened Model
  import opened Tables
  import opened DayKeys
  import opened Query
  import opened Tags

  /** The filters of ListTasks. */
  datatype TaskFilter = TaskFilter(tag: string, status: string, enabled: Option<bool>, paused: Option<bool>,
                                   limit: int, offset: int)

  /** One condition of the WHERE clause. */
  datatype Condition = EnabledIs(value: bool) | PausedIs(value: bool) | EnabledUnpaused | TagMatches(tag: string)

  predicate Holds(c: Condition, t: Task) {
    match c
    case EnabledIs(b) => t.enabled == b
    case PausedIs(b) => t.paused == b
    case EnabledUnpaused => t.enabled && !t.paused
    case TagMatches(tag) => TagClause(t.tags, tag)
  }

  predicate HoldAll(cs: seq<Condition>, t: Task) {
    forall c | c in cs :: Holds(c, t)
  }

  /** The tasks a filter asks for. */
  predicate Meets(f: TaskFilter, t: Task) {
    && (f.enabled == Some(t.enabled) || f.enabled == None)
    && (f.paused == Some(t.paused) || f.paused == None)
    && (f.status == "active" ==> Active(t))
    && (f.status == "paused" ==> t.paused)
    && (f.status == "disabled" ==> !t.enabled)
    && (f.tag == "" || TagClause(t.tags, f.tag))
  }

  /** The rows ListTasks selects from, newest first. */
  ghost predicate IsTaskList(db: Db, f: TaskFilter, rows: seq<Task>) {
    && (forall i | 0 <= i < |rows| :: rows[i].id in db.tasks && rows[i] == db.tasks[rows[i].id] && Meets(f, rows[i]))
    && (forall id | id in db.tasks && Meets(f, db.tasks[id]) :: db.tasks[id] in rows)
    && (forall i, j | 0 <= i < j < |rows| :: rows[i].id != rows[j].id && rows[i].createdAt >= rows[j].createdAt)
  }

  /** LIMIT and OFFSET; the offset is only bound together with a limit. */
  function Page(rows: seq<Task>, limit: int, offset: int): seq<Task> {
    if limit <= 0 then rows
    else
      var from := if offset <= 0 then 0 else if offset < |rows| then offset else |rows|;
      rows[from..if from + limit < |rows| then from + limit else |rows|]
  }

  /** The rows OrphanedRuns returns: the running runs, each once, by scheduled time. */
  ghost predicate IsOrphanList(db: Db, rows: seq<Run>) {
    && (forall i | 0 <= i < |rows| :: rows[i].id in OrphanIds(db) && rows[i] == db.runs[rows[i].id])
    && (forall id | id in OrphanIds(db) :: exists i :: 0 <= i < |rows| && rows[i].id == id)
    && (forall i, j | 0 <= i < j < |rows| :: rows[i].id != rows[j].id && rows[i].scheduledAt <= rows[j].scheduledAt)
  }

  datatype DayRow = DayRow(day: int, stat: DailyStat)

  /** The rows DailyStats returns for two day strings. */
  ghost predicate IsDayList(db: Db, fromDay: string, toDay: string, rows: seq<DayRow>) {
    && (forall i | 0 <= i < |rows| ::
          rows[i].day in db.stats && rows[i].stat == db.stats[rows[i].day] && InRange(fromDay, toDay, rows[i].day))
    && (forall day | day in db.stats && InRange(fromDay, toDay, day) :: DayRow(day, db.stats[day]) in rows)
    && (forall i, j | 0 <= i < j < |rows| :: Less(DayString(rows[i].day), DayString(rows[j].day)))
  }

  predicate InRange(fromDay: string, toDay: string, day: int) {
    AtMost(fromDay, DayString(day)) && AtMost(DayString(day), toDay)
  }

  // ---------- from row loops to lists ----------

  lemma DueRows(db: Db, now: int, keys: map<TaskId, int>, ids: seq<TaskId>, rows: seq<Task>)
    requires keys.Keys == DueIds(db, now)
    requires forall id | id in keys :: keys[id] == db.tasks[id].nextRunAt && db.tasks[id].id == id
    requires ListsInOrder(ids, keys, AtMostNumber) && |rows| == |ids|
    requires forall i | 0 <= i < |rows| :: rows[i] == db.tasks[ids[i]]
    ensures IsDueList(db, now, rows)
  {
    hide IsDue;
    forall id | id in DueIds(db, now) ensures exists i :: 0 <= i < |rows| && rows[i].id == id {
      KeyIsListed(ids, keys, AtMostNumber, id);
      var i :| 0 <= i < |ids| && ids[i] == id;
      assert rows[i].id == id;
    }
  }

  lemma OrphanRows(db: Db, keys: map<RunId, int>, ids: seq<RunId>, rows: seq<Run>)
    requires keys.Keys == OrphanIds(db)
    requires forall id | id in keys :: keys[id] == db.runs[id].scheduledAt && db.runs[id].id == id
    requires ListsInOrder(ids, keys, AtMostNumber) && |rows| == |ids|
    requires forall i | 0 <= i < |rows| :: rows[i] == db.runs[ids[i]]
    ensures IsOrphanList(db, rows)
  {
    forall id | id in OrphanIds(db) ensures exists i :: 0 <= i < |rows| && rows[i].id == id {
      KeyIsListed(ids, keys, AtMostNumber, id);
      var i :| 0 <= i < |ids| && ids[i] == id;
      assert rows[i].id == id;
    }
  }

  lemma TaskRows(db: Db, f: TaskFilter, keys: map<TaskId, int>, ids: seq<TaskId>, rows: seq<Task>)
    requires forall id :: id in keys <==> id in db.tasks && Meets(f, db.tasks[id])
    requires forall id | id in keys :: keys[id] == -db.tasks[id].createdAt && db.tasks[id].id == id
    requires ListsInOrder(ids, keys, AtMostNumber) && |rows| == |ids|
    requires forall i | 0 <= i < |rows| :: rows[i] == db.tasks[ids[i]]
    ensures IsTaskList(db, f, rows)
  {
    hide Meets;
    forall id | id in db.tasks && Meets(f, db.tasks[id]) ensures db.tasks[id] in rows {
      KeyIsListed(ids, keys, AtMostNumber, id);
      var i :| 0 <= i < |ids| && ids[i] == id;
      assert rows[i] == db.tasks[id];
    }
  }

  // ---------- the lists by the columns of their rows ----------

  lemma DueListHolds(db: Db, now: int, rows: seq<Task>)
    requires IsDueList(db, now, rows) && forall id | id in db.tasks :: db.tasks[id].id == id
    ensures forall t :: t in rows <==> t.id in db.tasks && db.tasks[t.id] == t
                                       && t.enabled && !t.paused && 0 < t.nextRunAt <= now
    ensures forall i, j | 0 <= i < j < |rows| :: rows[i].id != rows[j].id && rows[i].nextRunAt <= rows[j].nextRunAt
  {
    forall id | id in DueIds(db, now) ensures db.tasks[id] in rows {
      var i :| 0 <= i < |rows| && rows[i].id == id;
    }
  }

  lemma OrphanListHolds(db: Db, rows: seq<Run>)
    requires IsOrphanList(db, rows) && forall id | id in db.runs :: db.runs[id].id == id
    ensures forall r :: r in rows <==> r.id in db.runs && db.runs[r.id] == r && r.status == Running
    ensures forall i, j | 0 <= i < j < |rows| :: rows[i].id != rows[j].id && rows[i].scheduledAt <= rows[j].scheduledAt
  {
    forall id | id in OrphanIds(db) ensures db.runs[id] in rows {
      var i :| 0 <= i < |rows| && rows[i].id == id;
    }
  }

  lemma TaskListHolds(db: Db, f: TaskFilter, rows: seq<Task>)
    requires IsTaskList(db, f, rows) && forall id | id in db.tasks :: db.tasks[id].id == id
    ensures forall t :: t in rows <==>
              && t.id in db.tasks && db.tasks[t.id] == t
              && (f.enabled.Some? ==> t.enabled == f.enabled.value) && (f.paused.Some? ==> t.paused == f.paused.value)
              && (f.status == "active" ==> t.enabled && !t.paused) && (f.status == "paused" ==> t.paused)
              && (f.status == "disabled" ==> !t.enabled) && (f.tag != "" ==> TagClause(t.tags, f.tag))
    ensures forall i, j | 0 <= i < j < |rows| :: rows[i].id != rows[j].id && rows[i].createdAt >= rows[j].createdAt
  {
    hide TagClause;
  }

  /** Without a limit the page is the whole list; otherwise it starts at the offset and ends at the limit or the end. */
  lemma PageHolds(rows: seq<Task>, limit: int, offset: int)
    ensures limit <= 0 ==> Page(rows, limit, offset) == rows
    ensures limit > 0 ==>
              var from := if offset > 0 then offset else 0;
              var page := Page(rows, limit, offset);
              && |page| == (if from >= |rows| then 0 else if |rows| - from < limit then |rows| - from else limit)
              && forall i | 0 <= i < |page| :: from + i < |rows| && page[i] == rows[from + i]
  {
  }

  /** Where all years have four digits, the rows between two days are those of the days between them, in order. */
  lemma DayListIsExact(db: Db, first: int, last: int, rows: seq<DayRow>)
    requires IsDayList(db, DayString(first), DayString(last), rows) && HasDayString(first) && HasDayString(last)
    requires forall day | day in db.stats :: HasDayString(day)
    ensures forall row: DayRow :: row in rows <==>
              row.day in db.stats && first <= row.day <= last && row.stat == db.stats[row.day]
    ensures forall i, j | 0 <= i < j < |rows| :: rows[i].day < rows[j].day
  {
    hide DayString, HasDayString, Less;
    DayListIsChronological(db, DayString(first), DayString(last), rows);
    forall day | day in db.stats ensures InRange(DayString(first), DayString(last), day) <==> first <= day <= last {
      RangeIsChronological(first, last, day);
    }
    hide InRange;
    forall row: DayRow | row.day in db.stats && first <= row.day <= last && row.stat == db.stats[row.day]
      ensures row in rows
    {
      assert row == DayRow(row.day, db.stats[row.day]);
    }
  }

  lemma TextsAreOrdered()
    ensures IsOrder(AtMost)
  {
    hide Less;
    forall a, b ensures AtMost(a, b) || AtMost(b, a) { LessIsTotal(a, b); }
    forall a, b, c | AtMost(a, b) && AtMost(b, c) ensures AtMost(a, c) {
      if Less(a, b) && Less(b, c) { LessIsTransitive(a, b, c); }
    }
  }

  lemma DayRows(db: Db, fromDay: string, toDay: string, keys: map<int, string>, days: seq<int>, rows: seq<DayRow>)
    requires forall day :: day in keys <==> day in db.stats && InRange(fromDay, toDay, day)
    requires forall day | day in keys :: keys[day] == DayString(day)
    requires ListsInOrder(days, keys, AtMost) && |rows| == |days|
    requires forall i | 0 <= i < |rows| :: days[i] in db.stats && rows[i] == DayRow(days[i], db.stats[days[i]])
    ensures IsDayList(db, fromDay, toDay, rows)
  {
    hide DayString, Less, InRange;
    forall day | day in db.stats && InRange(fromDay, toDay, day) ensures DayRow(day, db.stats[day]) in rows {
      KeyIsListed(days, keys, AtMost, day);
      var i :| 0 <= i < |days| && days[i] == day;
      assert rows[i] == DayRow(day, db.stats[day]);
    }
    forall i, j | 0 <= i < j < |rows| ensures Less(DayString(rows[i].day), DayString(rows[j].day)) {
      assert days[i] != days[j] && AtMost(keys[days[i]], keys[days[j]]);
      if DayString(days[i]) == DayString(days[j]) { DayStringDistinct(days[i], days[j]); }
    }
  }

  /** Where all years have four digits, the rows come in the order of their days. */
  lemma DayListIsChronological(db: Db, fromDay: string, toDay: string, rows: seq<DayRow>)
    requires IsDayList(db, fromDay, toDay, rows) && forall day | day in db.stats :: HasDayString(day)
    ensures forall i, j | 0 <= i < j < |rows| :: rows[i].day < rows[j].day
  {
    hide DayString, HasDayString, Less, InRange;
    forall i, j | 0 <= i < j < |rows| ensures rows[i].day < rows[j].day {
      DayStringOrder(rows[i].day, rows[j].day);
    }
  }

  lemma AddCondition(where: seq<Condition>, c: Condition)
    ensures forall t :: HoldAll(where + [c], t) <==> HoldAll(where, t) && Holds(c, t)
  {
  }

  lemma NoCondition()
    ensures forall t :: HoldAll([], t)
  {
  }

  lemma SelectedTasks(tasks: map<TaskId, Task>)
    ensures Selected(tasks, (t: Task) => t.enabled && !t.paused) == set id | id in tasks && Active(tasks[id])
    ensures Selected(tasks, (t: Task) => t.paused) == set id | id in tasks && tasks[id].paused
    ensures Selected(tasks, (t: Task) => !t.enabled) == set id | id in tasks && !tasks[id].enabled
  {
  }

  lemma SelectedRuns(runs: map<RunId, Run>)
    ensures Selected(runs, (r: Run) => r.status == Succeeded) == RowsWith(runs, Succeeded)
    ensures Selected(runs, (r: Run) => r.status == Failed || r.status == Orphaned)
            == RowsWith(runs, Failed) + RowsWith(runs, Orphaned)
    ensures Selected(runs, (r: Run) => r.status == Orphaned) == RowsWith(runs, Orphaned)
    ensures Selected(runs, (r: Run) => r.status == Running) == RowsWith(runs, Running)
  {
  }

  /** The totals, row by row. */
  lemma TaskTotalsHold(db: Db)
    ensures var t := OverallTasks(db);
            && t.total == |db.tasks| && t.paused == |set id | id in db.tasks && db.tasks[id].paused|
            && t.active == |set id | id in db.tasks && db.tasks[id].enabled && !db.tasks[id].paused|
            && t.disabled == |set id | id in db.tasks && !db.tasks[id].enabled|
  {
    assert (set id | id in db.tasks && Active(db.tasks[id]))
           == set id | id in db.tasks && db.tasks[id].enabled && !db.tasks[id].paused;
  }

  lemma RunTotalsHold(db: Db)
    ensures var r := OverallRuns(db);
            && r.total == |db.runs| && r.succeeded == |set id | id in db.runs && db.runs[id].status == Succeeded|
            && r.failed == |set id | id in db.runs && (db.runs[id].status == Failed || db.runs[id].status == Orphaned)|
            && r.orphaned == |set id | id in db.runs && db.runs[id].status == Orphaned|
            && r.running == |set id | id in db.runs && db.runs[id].status == Running|
  {
    RowsWithIs(db.runs, Succeeded);
    RowsWithIs(db.runs, Orphaned);
    RowsWithIs(db.runs, Running);
    FailedRowsAre(db.runs);
    hide RowsWith;
  }

  lemma RowsWithIs(runs: map<RunId, Run>, status: RunStatus)
    ensures RowsWith(runs, status) == set id | id in runs && runs[id].status == status
  {
  }

  lemma FailedRowsAre(runs: map<RunId, Run>)
    ensures RowsWith(runs, Failed) + RowsWith(runs, Orphaned)
            == set id | id in runs && (runs[id].status == Failed || runs[id].status == Orphaned)
  {
  }

  class Store {
    var tasks: map<TaskId, Task>
    var runs: map<RunId, Run>
    var stats: map<int, DailyStat>

    constructor ()
      ensures Valid() && Contents() == Db(map[], map[], map[])
    {
      tasks, runs, stats := map[], map[], map[];
    }

    ghost function Contents(): Db
      reads this
    {
      Db(tasks, runs, stats)
    }

    /** Rows carry their primary key. */
    ghost predicate Valid()
      reads this
    {
      (forall id | id in tasks :: tasks[id].id == id) && (forall id | id in runs :: runs[id].id == id)
    }

    // ---------- task_repo.go ----------

    method CreateTask(t: Task) returns (ok: bool)
      requires Valid()
      modifies this`tasks
      ensures Valid() && ok == (t.id !in old(tasks))
      ensures tasks == if ok then old(tasks)[t.id := t] else old(tasks)
    {
      ok := t.id !in tasks;
      if ok {
        tasks := tasks[t.id := t];
      }
    }

    method GetTask(id: TaskId) returns (t: Option<Task>)
      ensures t == if id in tasks then Some(tasks[id]) else None
    {
      t := if id in tasks then Some(tasks[id]) else None;
    }

    method SetEnabled(id: TaskId, enabled: bool, updatedAt: int)
      requires Valid()
      modifies this`tasks
      ensures Valid() && Contents() == Tables.SetEnabled(old(Contents()), id, enabled, updatedAt)
      ensures tasks == if id !in old(tasks) then old(tasks)
                       else old(tasks)[id := old(tasks)[id].(enabled := enabled, updatedAt := updatedAt)]
    {
      if id in tasks {
        tasks := tasks[id := tasks[id].(enabled := enabled, updatedAt := updatedAt)];
      }
    }

    method SetPaused(id: TaskId, paused: bool, updatedAt: int)
      requires Valid()
      modifies this`tasks
      ensures Valid() && Contents() == Tables.SetPaused(old(Contents()), id, paused, updatedAt)
      ensures tasks == if id !in old(tasks) then old(tasks)
                       else old(tasks)[id := old(tasks)[id].(paused := paused, updatedAt := updatedAt)]
    {
      if id in tasks {
        tasks := tasks[id := tasks[id].(paused := paused, updatedAt := updatedAt)];
      }
    }

    method SetNextRun(id: TaskId, nextRunAt: int, lastRunAt: int, updatedAt: int)
      requires Valid()
      modifies this`tasks
      ensures Valid() && Contents() == Tables.SetNextRun(old(Contents()), id, nextRunAt, lastRunAt, updatedAt)
      ensures tasks.Keys == old(tasks).Keys && forall i | i in tasks && i != id :: tasks[i] == old(tasks)[i]
      ensures id in tasks ==>
                tasks[id] == old(tasks)[id].(nextRunAt := nextRunAt, lastRunAt := lastRunAt, updatedAt := updatedAt)
    {
      if id in tasks {
        tasks := tasks[id := tasks[id].(nextRunAt := nextRunAt, lastRunAt := lastRunAt, updatedAt := updatedAt)];
      }
    }

    method SetLastRun(id: TaskId, lastRunAt: int)
      requires Valid()
      modifies this`tasks
      ensures Valid() && Contents() == Tables.SetLastRun(old(Contents()), id, lastRunAt)
      ensures tasks == if id !in old(tasks) then old(tasks)
                       else old(tasks)[id := old(tasks)[id].(lastRunAt := lastRunAt)]
    {
      if id in tasks {
        tasks := tasks[id := tasks[id].(lastRunAt := lastRunAt)];
      }
    }

    method DeleteTask(id: TaskId)
      requires Valid()
      modifies this`tasks, this`runs
      ensures Valid() && Contents() == Tables.DeleteTask(old(Contents()), id)
      ensures tasks == old(tasks) - {id} && forall r :: r in runs <==> r in old(runs) && old(runs)[r].taskId != id
      ensures forall r | r in runs :: runs[r] == old(runs)[r]
    {
      runs := map r | r in runs && runs[r].taskId != id :: runs[r];
      tasks := tasks - {id};
    }

    /** The WHERE clause of DueTasks selects exactly the tasks that IsDue accepts. */
    method DueTasks(nowMs: int) returns (out: seq<Task>)
      requires Valid()
      ensures IsDueList(Contents(), nowMs, out)
      ensures forall t :: t in out <==> t.id in tasks && tasks[t.id] == t
                                        && t.enabled && !t.paused && 0 < t.nextRunAt <= nowMs
      ensures forall i, j | 0 <= i < j < |out| :: out[i].id != out[j].id && out[i].nextRunAt <= out[j].nextRunAt
    {
      var keys := map id | id in tasks && tasks[id].enabled && !tasks[id].paused
                           && 0 < tasks[id].nextRunAt && tasks[id].nextRunAt <= nowMs :: tasks[id].nextRunAt;
      assert keys.Keys == DueIds(Contents(), nowMs);
      NumbersAreOrdered();
      var ids := OrderBy(keys, AtMostNumber);
      out := Fetch(ids, tasks);
      DueRows(Contents(), nowMs, keys, ids, out);
      DueListHolds(Contents(), nowMs, out);
    }

    /** The filters become conditions one by one, as in the source. */
    method Conditions(f: TaskFilter) returns (where: seq<Condition>)
      ensures forall t :: HoldAll(where, t) <==> Meets(f, t)
    {
      hide HoldAll, TagClause;
      NoCondition();
      where := [];
      if f.enabled.Some? {
        AddCondition(where, EnabledIs(f.enabled.value));
        where := where + [EnabledIs(f.enabled.value)];
      }
      if f.paused.Some? {
        AddCondition(where, PausedIs(f.paused.value));
        where := where + [PausedIs(f.paused.value)];
      }
      match f.status {
        case "active" => AddCondition(where, EnabledUnpaused); where := where + [EnabledUnpaused];
        case "paused" => AddCondition(where, PausedIs(true)); where := where + [PausedIs(true)];
        case "disabled" => AddCondition(where, EnabledIs(false)); where := where + [EnabledIs(false)];
        case _ =>
      }
      if f.tag != "" {
        AddCondition(where, TagMatches(f.tag));
        where := where + [TagMatches(f.tag)];
      }
    }

    method ListTasks(f: TaskFilter) returns (out: seq<Task>, all: seq<Task>)
      requires Valid()
      ensures IsTaskList(Contents(), f, all) && out == Page(all, f.limit, f.offset)
      ensures forall t :: t in all <==>
                && t.id in tasks && tasks[t.id] == t
                && (f.enabled.Some? ==> t.enabled == f.enabled.value) && (f.paused.Some? ==> t.paused == f.paused.value)
                && (f.status == "active" ==> t.enabled && !t.paused) && (f.status == "paused" ==> t.paused)
                && (f.status == "disabled" ==> !t.enabled) && (f.tag != "" ==> TagClause(t.tags, f.tag))
      ensures forall i, j | 0 <= i < j < |all| :: all[i].id != all[j].id && all[i].createdAt >= all[j].createdAt
      ensures if f.limit <= 0 then out == all
              else
                var from := if f.offset > 0 then f.offset else 0;
                && |out| == (if from >= |all| then 0 else if |all| - from < f.limit then |all| - from else f.limit)
                && forall i | 0 <= i < |out| :: from + i < |all| && out[i] == all[from + i]
    {
      hide TagClause, Page, IsTaskList;
      all := SelectTasks(f);
      out := Page(all, f.limit, f.offset);
      TaskListHolds(Contents(), f, all);
      PageHolds(all, f.limit, f.offset);
    }

    /** The query of ListTasks without LIMIT and OFFSET. */
    method SelectTasks(f: TaskFilter) returns (all: seq<Task>)
      requires Valid()
      ensures IsTaskList(Contents(), f, all)
    {
      hide Meets, HoldAll;
      var where := Conditions(f);
      var keys := map id | id in tasks && HoldAll(where, tasks[id]) :: -tasks[id].createdAt;
      NumbersAreOrdered();
      var ids := OrderBy(keys, AtMostNumber);
      all := Fetch(ids, tasks);
      TaskRows(Contents(), f, keys, ids, all);
    }

    // ---------- run_repo.go ----------

    method CreateRun(run: Run) returns (ok: bool)
      requires Valid()
      modifies this`runs
      ensures Valid() && ok == (run.id !in old(runs))
      ensures Contents() == if ok then Tables.CreateRun(old(Contents()), run) else old(Contents())
      ensures runs == if ok then old(runs)[run.id := run] else old(runs)
    {
      ok := run.id !in runs;
      if ok {
        runs := runs[run.id := run];
      }
    }

    method GetRun(id: RunId) returns (r: Option<Run>)
      ensures r == if id in runs then Some(runs[id]) else None
    {
      r := if id in runs then Some(runs[id]) else None;
    }

    method UpdateRunStatus(id: RunId, status: RunStatus, startedAt: int, finishedAt: int)
      requires Valid()
      modifies this`runs
      ensures Valid() && Contents() == Tables.UpdateRunStatus(old(Contents()), id, status, startedAt, finishedAt)
      ensures runs.Keys == old(runs).Keys && forall i | i in runs && i != id :: runs[i] == old(runs)[i]
      ensures id in runs ==>
                runs[id] == old(runs)[id].(status := status, startedAt := startedAt, finishedAt := finishedAt)
    {
      if id in runs {
        runs := runs[id := runs[id].(status := status, startedAt := startedAt, finishedAt := finishedAt)];
      }
    }

    method RetryRun(orig: Run, id: RunId, scheduledAt: int) returns (r: Run, ok: bool)
      requires Valid()
      modifies this`runs
      ensures Valid() && r == RetryOf(orig, id, scheduledAt) && ok == (id !in old(runs))
      ensures Contents() == if ok then Tables.CreateRun(old(Contents()), r) else old(Contents())
      ensures r.id == id && r.taskId == orig.taskId && r.attempt == orig.attempt + 1 && r.trigger == ByRetry
      ensures r.status == Pending && r.scheduledAt == scheduledAt && r.startedAt == 0 && r.finishedAt == 0
    {
      r := Run(id, orig.taskId, orig.attempt + 1, Pending, scheduledAt, 0, 0, ByRetry);
      ok := CreateRun(r);
    }

    method DeleteRun(id: RunId)
      requires Valid()
      modifies this`runs
      ensures Valid() && Contents() == Tables.DeleteRun(old(Contents()), id)
      ensures runs == old(runs) - {id}
    {
      runs := runs - {id};
    }

    method OrphanedRuns() returns (out: seq<Run>)
      requires Valid()
      ensures IsOrphanList(Contents(), out) && |out| == |OrphanIds(Contents())|
      ensures forall r :: r in out <==> r.id in runs && runs[r.id] == r && r.status == Running
      ensures forall i, j | 0 <= i < j < |out| :: out[i].id != out[j].id && out[i].scheduledAt <= out[j].scheduledAt
    {
      var keys := map id | id in runs && runs[id].status == Running :: runs[id].scheduledAt;
      assert keys.Keys == OrphanIds(Contents());
      NumbersAreOrdered();
      var ids := OrderBy(keys, AtMostNumber);
      out := Fetch(ids, runs);
      OrphanRows(Contents(), keys, ids, out);
      OrphanListHolds(Contents(), out);
    }

    // ---------- stats.go ----------

    method RecordRunOutcome(day: int, status: RunStatus)
      modifies this`stats
      ensures Contents() == Tables.RecordRunOutcome(old(Contents()), day, status)
      ensures forall d | d in old(stats) && d != day :: d in stats && stats[d] == old(stats)[d]
      ensures stats.Keys == old(stats).Keys + if status == Pending then {} else {day}
      ensures day in stats ==>
                var was := if day in old(stats) then old(stats)[day] else DailyStat(0, 0, 0);
                && stats[day].succeeded == was.succeeded + (if status == Succeeded then 1 else 0)
                && stats[day].failed == was.failed + (if status == Failed || status == Orphaned then 1 else 0)
                && stats[day].running == was.running + (if status == Running then 1 else 0)
    {
      if status == Pending {
        return;
      }
      var row := if day in stats then stats[day] else DailyStat(0, 0, 0);
      if status == Succeeded {
        row := row.(succeeded := row.succeeded + 1);
      } else if status == Failed || status == Orphaned {
        row := row.(failed := row.failed + 1);
      } else {
        row := row.(running := row.running + 1);
      }
      stats := stats[day := row];
    }

    method OverallStats() returns (t: TaskTotals, r: RunTotals)
      ensures t == OverallTasks(Contents()) && r == OverallRuns(Contents())
      ensures t.total == |tasks| && t.active == |set id | id in tasks && tasks[id].enabled && !tasks[id].paused|
      ensures t.paused == |set id | id in tasks && tasks[id].paused|
      ensures t.disabled == |set id | id in tasks && !tasks[id].enabled|
      ensures r.total == |runs| && r.succeeded == |set id | id in runs && runs[id].status == Succeeded|
      ensures r.failed == |set id | id in runs && (runs[id].status == Failed || runs[id].status == Orphaned)|
      ensures r.orphaned == |set id | id in runs && runs[id].status == Orphaned|
      ensures r.running == |set id | id in runs && runs[id].status == Running|
    {
      hide OverallTasks, OverallRuns;
      t := TaskCounts();
      r := RunCounts();
      TaskTotalsHold(Contents());
      RunTotalsHold(Contents());
    }

    method TaskCounts() returns (t: TaskTotals)
      ensures t == OverallTasks(Contents())
    {
      var active := CountWhere(tasks, (t: Task) => t.enabled && !t.paused);
      var paused := CountWhere(tasks, (t: Task) => t.paused);
      var disabled := CountWhere(tasks, (t: Task) => !t.enabled);
      t := TaskTotals(|tasks|, active, paused, disabled);
      SelectedTasks(tasks);
    }

    method RunCounts() returns (r: RunTotals)
      ensures r == OverallRuns(Contents())
    {
      hide Selected;
      var succeeded := CountWhere(runs, (r: Run) => r.status == Succeeded);
      var failed := CountWhere(runs, (r: Run) => r.status == Failed || r.status == Orphaned);
      var orphaned := CountWhere(runs, (r: Run) => r.status == Orphaned);
      var running := CountWhere(runs, (r: Run) => r.status == Running);
      r := RunTotals(|runs|, succeeded, failed, orphaned, running);
      SelectedRuns(runs);
    }

    /** Days compare as strings. */
    method DailyStats(fromDay: string, toDay: string) returns (out: seq<DayRow>)
      ensures IsDayList(Contents(), fromDay, toDay, out)
    {
      hide DayString, Less, AtMost;
      var keys := map day | day in stats && InRange(fromDay, toDay, day) :: DayString(day);
      TextsAreOrdered();
      var days := OrderBy(keys, AtMost);
      var found := Fetch(days, stats);
      out := seq(|days|, i requires 0 <= i < |days| => DayRow(days[i], found[i]));
      DayRows(Contents(), fromDay, toDay, keys, days, out);
    }
  }
}

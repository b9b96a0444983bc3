/** The tallies of internal/scheduler/report.go. */
module Reporting {
  import opened Prelude
  import opened Model
  import opened Tables
  import opened Store
  import opened Query
  import opened FaultFree

  datatype TaskReport = TaskReport(total: nat, enabled: nat, paused: nat, due: nat)

  /** The tasks of a list that satisfy a condition. */
  ghost function IdsWhere(tasks: seq<Task>, cond: Task -> bool): set<TaskId> {
    set i | 0 <= i < |tasks| && cond(tasks[i]) :: tasks[i].id
  }

  ghost predicate DistinctTasks(tasks: seq<Task>) {
    forall i, j | 0 <= i < j < |tasks| :: tasks[i].id != tasks[j].id
  }

  lemma OneMoreTask(tasks: seq<Task>, i: nat, cond: Task -> bool)
    requires i < |tasks| && DistinctTasks(tasks)
    ensures |IdsWhere(tasks[..i + 1], cond)| == |IdsWhere(tasks[..i], cond)| + if cond(tasks[i]) then 1 else 0
  {
    var a, b := tasks[..i], tasks[..i + 1];
    assert forall j | 0 <= j < i :: a[j] == b[j];
    assert b[i] == tasks[i];
    assert IdsWhere(b, cond) == IdsWhere(a, cond) + if cond(tasks[i]) then {tasks[i].id} else {};
    assert tasks[i].id !in IdsWhere(a, cond);
  }

  lemma AllTasksListed(db: Db, tasks: seq<Task>, cond: Task -> bool)
    requires IsTaskList(db, ALL_TASKS, tasks) && forall id | id in db.tasks :: db.tasks[id].id == id
    ensures IdsWhere(tasks, cond) == Selected(db.tasks, cond)
  {
    forall id | id in Selected(db.tasks, cond) ensures id in IdsWhere(tasks, cond) {
      assert db.tasks[id] in tasks;
      var i :| 0 <= i < |tasks| && tasks[i] == db.tasks[id];
    }
  }

  const ALL_TASKS := TaskFilter("", "", None, None, 0, 0)

  /** The report has counted the first i tasks of the list. */
  ghost predicate Tallied(tasks: seq<Task>, i: nat, now: int, r: TaskReport)
    requires i <= |tasks|
  {
    && r.total == |tasks|
    && r.enabled == |IdsWhere(tasks[..i], (t: Task) => t.enabled)|
    && r.paused == |IdsWhere(tasks[..i], (t: Task) => t.paused)|
    && r.due == |IdsWhere(tasks[..i], (t: Task) => IsDue(t, now))|
  }

  lemma TallyOne(tasks: seq<Task>, i: nat, now: int, r: TaskReport)
    requires i < |tasks| && DistinctTasks(tasks) && Tallied(tasks, i, now, r)
    ensures Tallied(tasks, i + 1, now,
                    TaskReport(r.total, r.enabled + (if tasks[i].enabled then 1 else 0),
                               r.paused + (if tasks[i].paused then 1 else 0),
                               r.due + (if IsDue(tasks[i], now) then 1 else 0)))
  {
    hide IsDue, IdsWhere;
    OneMoreTask(tasks, i, (t: Task) => t.enabled);
    OneMoreTask(tasks, i, (t: Task) => t.paused);
    OneMoreTask(tasks, i, (t: Task) => IsDue(t, now));
  }

  lemma NoneTallied(tasks: seq<Task>, now: int)
    ensures Tallied(tasks, 0, now, TaskReport(|tasks|, 0, 0, 0))
  {
  }

  /** The loop of report.go. */
  method Tally(tasks: seq<Task>, now: int) returns (report: TaskReport)
    requires DistinctTasks(tasks)
    ensures Tallied(tasks, |tasks|, now, report)
  {
    hide Tallied;
    report := TaskReport(|tasks|, 0, 0, 0);
    NoneTallied(tasks, now);
    for i := 0 to |tasks|
      invariant Tallied(tasks, i, now, report)
    {
      var task := tasks[i];
      TallyOne(tasks, i, now, report);
      if task.enabled {
        report := report.(enabled := report.enabled + 1);
      }
      if task.paused {
        report := report.(paused := report.paused + 1);
      }
      if task.nextRunAt > 0 && task.nextRunAt <= now && task.enabled && !task.paused {
        report := report.(due := report.due + 1);
      }
    }
  }

  /** The report about all tasks. */
  ghost predicate Reports(db: Db, now: int, r: TaskReport) {
    && r.total == |db.tasks|
    && r.enabled == |set id | id in db.tasks && db.tasks[id].enabled|
    && r.paused == |set id | id in db.tasks && db.tasks[id].paused|
    && r.due == |set id | id in db.tasks && db.tasks[id].enabled && !db.tasks[id].paused
                          && 0 < db.tasks[id].nextRunAt <= now|
  }

  lemma TallyAll(db: Db, tasks: seq<Task>, now: int, r: TaskReport)
    requires IsTaskList(db, ALL_TASKS, tasks) && (forall id | id in db.tasks :: db.tasks[id].id == id)
    requires Tallied(tasks, |tasks|, now, r)
    ensures Reports(db, now, r)
  {
    hide IsDue, IdsWhere, Selected, IsTaskList;
    assert tasks[..|tasks|] == tasks;
    AllTasksListed(db, tasks, (t: Task) => t.enabled);
    AllTasksListed(db, tasks, (t: Task) => t.paused);
    AllTasksListed(db, tasks, (t: Task) => IsDue(t, now));
    AllTasksListed(db, tasks, (t: Task) => true);
    SelectedIs(db, now);
    CountOfAll(tasks, |tasks|);
    ListedTasksDiffer(db, tasks);
  }

  lemma SelectedIs(db: Db, now: int)
    ensures Selected(db.tasks, (t: Task) => t.enabled) == set id | id in db.tasks && db.tasks[id].enabled
    ensures Selected(db.tasks, (t: Task) => t.paused) == set id | id in db.tasks && db.tasks[id].paused
    ensures Selected(db.tasks, (t: Task) => IsDue(t, now))
            == set id | id in db.tasks && db.tasks[id].enabled && !db.tasks[id].paused
                        && 0 < db.tasks[id].nextRunAt <= now
    ensures Selected(db.tasks, (t: Task) => true) == db.tasks.Keys
  {
  }

  lemma ListedTasksDiffer(db: Db, tasks: seq<Task>)
    requires IsTaskList(db, ALL_TASKS, tasks)
    ensures DistinctTasks(tasks)
  {
  }

  lemma {:induction false} CountOfAll(tasks: seq<Task>, i: nat)
    requires i <= |tasks|
    ensures DistinctTasks(tasks) ==> |IdsWhere(tasks[..i], (t: Task) => true)| == i
  {
    if i > 0 && DistinctTasks(tasks) {
      CountOfAll(tasks, i - 1);
      OneMoreTask(tasks, i - 1, (t: Task) => true);
    }
  }

  /** After a Tick, a report about the same time shows no due task. */
  lemma NothingDueAfterTick(db: Db, now: int, db': Db, r: TaskReport)
    requires TickResult(db, now, db') && Reports(db', now, r)
    ensures r.due == 0
  {
    hide Advanced, RanOnSchedule;
    var due := set id | id in db'.tasks && db'.tasks[id].enabled && !db'.tasks[id].paused
                        && 0 < db'.tasks[id].nextRunAt <= now;
    assert due == DueIds(db', now);
  }
}

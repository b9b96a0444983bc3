/** How often a series of Ticks fires a task when nothing fails and nothing intervenes: a cron task once for every Tick
    that finds a matching minute since the time from which the schedule was last computed, any other task once, at the
    first Tick that reaches its next run time. */
module TickCounts {
  import opened Model
  import opened Tables
  import opened Engine
  import opened CronNext
  import opened CronParse
  import opened FaultFree

  /** A matching minute lies after the first instant and up to the second, inside the window that starts at the
      first. */
  ghost predicate MinutePassed(expr: string, after: int, now: int) {
    ParseSpec(expr).Some? && exists m :: MatchBetween(ParseSpec(expr).value, m, after, now)
  }

  ghost predicate MatchBetween(s: Schedule, m: int, after: int, now: int) {
    after < m * MS_PER_MINUTE <= now && m < Limit(StartMinute(after)) && Matches(s, m)
  }

  /** The task fires by cron, and its next run time was computed from the instant. */
  ghost predicate ScheduledSince(t: Task, after: int) {
    t.specType == SpecCron && Active(t) && 0 <= after && t.nextRunAt == NextDue(t, after)
  }

  lemma DueIffMinutePassed(t: Task, after: int, now: int)
    requires ScheduledSince(t, after)
    ensures IsDue(t, now) <==> MinutePassed(t.cronExpr, after, now)
  {
    hide ParseSpec, NextMatch, Matches, Limit;
    if ParseSpec(t.cronExpr).Some? {
      var s := ParseSpec(t.cronExpr).value;
      var next := NextMatch(s, after);
      if next.Some? {
        NextMatchIsLeast(s, after, next.value);
        if IsDue(t, now) {
          assert MatchBetween(s, next.value, after, now);
        }
        if m :| MatchBetween(s, m, after, now) {
          assert next.value <= m;
        }
      } else {
        NextMatchIsLeast(s, after, 0);
        assert forall m :: !MatchBetween(s, m, after, now);
      }
    }
  }

  /** A new cron task that is active is scheduled since its creation. */
  lemma NewTaskIsScheduled(t: Task, now: int)
    requires t.specType == SpecCron && Active(t) && 0 <= now && FirstDue(t, now)
    ensures ScheduledSince(t, now)
  {
    hide NextCron;
  }

  /** A Tick at a time, with the tasks it found due and what it noted of each. */
  datatype TickRun = TickRun(now: int, due: seq<Task>, notes: seq<Note>)

  /** The Tick lists exactly the enabled, unpaused tasks whose next run time has come by its time, each once and in the
      order of those times; its runs are new, and it computes the next times after it has begun. */
  ghost predicate IsTick(db: Db, tick: TickRun) {
    && ListsDue(db, tick.now, tick.due) && 0 <= tick.now && |tick.notes| == |tick.due|
    && (forall i | 0 <= i < |tick.notes| :: tick.notes[i].id !in db.runs && tick.now <= tick.notes[i].computedAt)
    && (forall i, j | 0 <= i < j < |tick.notes| :: tick.notes[i].id != tick.notes[j].id)
  }

  ghost predicate ListsDue(db: Db, now: int, due: seq<Task>) {
    && (forall i | 0 <= i < |due| ::
          && due[i].id in db.tasks && due[i] == db.tasks[due[i].id]
          && due[i].enabled && !due[i].paused && 0 < due[i].nextRunAt <= now)
    && (forall id | id in db.tasks && db.tasks[id].enabled && !db.tasks[id].paused
                    && 0 < db.tasks[id].nextRunAt <= now ::
          exists i :: 0 <= i < |due| && due[i].id == id)
    && (forall i, j | 0 <= i < j < |due| :: due[i].id != due[j].id && due[i].nextRunAt <= due[j].nextRunAt)
  }

  lemma IsTickIff(db: Db, tick: TickRun)
    ensures IsTick(db, tick) <==>
              && IsDueList(db, tick.now, tick.due) && |tick.notes| == |tick.due| && FreshNotes(db, tick.notes)
              && 0 <= tick.now && forall i | 0 <= i < |tick.notes| :: tick.now <= tick.notes[i].computedAt
  {
    assert forall id :: id in DueIds(db, tick.now) <==>
             id in db.tasks && db.tasks[id].enabled && !db.tasks[id].paused && 0 < db.tasks[id].nextRunAt <= tick.now;
  }

  ghost function AfterTick(db: Db, tick: TickRun): Db
    requires IsTick(db, tick)
  {
    DispatchAll(db, tick.due, tick.now, tick.notes)
  }

  ghost predicate AreTicks(db: Db, ticks: seq<TickRun>)
    decreases |ticks|
  {
    ticks != [] ==> IsTick(db, ticks[0]) && AreTicks(AfterTick(db, ticks[0]), ticks[1..])
  }

  ghost function AfterTicks(db: Db, ticks: seq<TickRun>): Db
    requires AreTicks(db, ticks)
    decreases |ticks|
  {
    if ticks == [] then db else AfterTicks(AfterTick(db, ticks[0]), ticks[1..])
  }

  ghost function ScheduledRows(runs: map<RunId, Run>, t: TaskId): set<RunId> {
    set id | id in runs && runs[id].taskId == t && runs[id].trigger == BySchedule
  }

  /** The time from which the Tick computed the next run of the task it dispatched. */
  ghost function ComputedFor(tick: TickRun, t: TaskId): int
    requires |tick.notes| == |tick.due|
  {
    if i :| 0 <= i < |tick.due| && tick.due[i].id == t then tick.notes[i].computedAt else tick.now
  }

  /** One Tick fires the task exactly when a matching minute has passed. */
  lemma TickFiresIff(db: Db, tick: TickRun, t: TaskId, after: int)
    requires IsTick(db, tick) && t in db.tasks && ScheduledSince(db.tasks[t], after)
    ensures var db' := AfterTick(db, tick);
            && t in db'.tasks && db'.tasks[t].cronExpr == db.tasks[t].cronExpr
            && (if MinutePassed(db.tasks[t].cronExpr, after, tick.now) then
                  && |ScheduledRows(db'.runs, t)| == |ScheduledRows(db.runs, t)| + 1
                  && ScheduledSince(db'.tasks[t], ComputedFor(tick, t))
                else
                  ScheduledRows(db'.runs, t) == ScheduledRows(db.runs, t) && db'.tasks[t] == db.tasks[t])
  {
    hide ScheduledSince, MinutePassed, NextDue, IsDueList, IsTick;
    IsTickIff(db, tick);
    var db' := AfterTick(db, tick);
    DueIffMinutePassedIn(db, tick, t, after);
    TickKeepsPromise(db, tick.now, tick.due, tick.notes);
    NewRowsCount(db, tick.now, db', t);
    if t in DueIds(db, tick.now) {
      ScheduleMovesOn(db, tick, t, after);
    }
  }

  lemma DueIffMinutePassedIn(db: Db, tick: TickRun, t: TaskId, after: int)
    requires t in db.tasks && ScheduledSince(db.tasks[t], after)
    ensures t in DueIds(db, tick.now) <==> MinutePassed(db.tasks[t].cronExpr, after, tick.now)
  {
    hide MinutePassed, ScheduledSince;
    DueIffMinutePassed(db.tasks[t], after, tick.now);
  }

  lemma NewRowsCount(db: Db, now: int, db': Db, t: TaskId)
    requires TickResult(db, now, db') && t in db.tasks
    ensures t in DueIds(db, now) ==> |ScheduledRows(db'.runs, t)| == |ScheduledRows(db.runs, t)| + 1
    ensures t !in DueIds(db, now) ==> ScheduledRows(db'.runs, t) == ScheduledRows(db.runs, t) && t in db'.tasks
                                      && db'.tasks[t] == db.tasks[t]
  {
    hide Advanced, IsDue;
    if t in DueIds(db, now) {
      var r :| NewRunsOf(db, db', t) == {r} && RanOnSchedule(db', r, now);
      assert r in NewRunsOf(db, db', t);
      assert ScheduledRows(db'.runs, t) == ScheduledRows(db.runs, t) + {r};
    } else {
      assert ScheduledRows(db'.runs, t) == ScheduledRows(db.runs, t) by {
        assert forall id | id in db'.runs && id !in db.runs && db'.runs[id].taskId == t :: id in NewRunsOf(db, db', t);
      }
    }
  }

  lemma DispatchedRow(db: Db, tick: TickRun, t: TaskId) returns (i: nat)
    requires IsTick(db, tick) && t in DueIds(db, tick.now)
    ensures i < |tick.due| == |tick.notes| && tick.due[i] == db.tasks[t]
    ensures ComputedFor(tick, t) == tick.notes[i].computedAt && tick.now <= tick.notes[i].computedAt
    ensures var db' := AfterTick(db, tick);
            t in db'.tasks && db'.tasks[t] == TaskAfter(tick.due[i], tick.now, tick.notes[i])
  {
    hide TaskAfter, DispatchAll, IsDueList, IsDue, FreshNotes, IsTick;
    IsTickIff(db, tick);
    IsSnapshot(db, tick.now, tick.due);
    DispatchAllTasks(db, tick.due, tick.now, tick.notes);
    i :| 0 <= i < |tick.due| && tick.due[i].id == t && ComputedFor(tick, t) == tick.notes[i].computedAt;
  }

  lemma ScheduleMovesOn(db: Db, tick: TickRun, t: TaskId, after: int)
    requires IsTick(db, tick) && t in DueIds(db, tick.now) && ScheduledSince(db.tasks[t], after)
    ensures var db' := AfterTick(db, tick);
            && t in db'.tasks && db'.tasks[t].cronExpr == db.tasks[t].cronExpr
            && ScheduledSince(db'.tasks[t], ComputedFor(tick, t))
  {
    hide AfterTick, ComputedFor, TaskAfter, ScheduledSince, IsDue, FreshNotes, ListsDue;
    var i := DispatchedRow(db, tick, t);
    RowIsScheduled(tick.due[i], tick.now, tick.notes[i], after);
  }

  lemma RowIsScheduled(t: Task, now: int, note: Note, after: int)
    requires ScheduledSince(t, after) && 0 <= now <= note.computedAt
    ensures TaskAfter(t, now, note).cronExpr == t.cronExpr && ScheduledSince(TaskAfter(t, now, note), note.computedAt)
  {
    hide NextDue;
    SameNextDue(t, now, note);
  }

  lemma SameNextDue(t: Task, now: int, note: Note)
    ensures NextDue(TaskAfter(t, now, note), note.computedAt) == NextDue(t, note.computedAt)
  {
    hide ParseSpec, NextMatch;
  }

  /** The Ticks of the series that find a matching minute since the schedule was last computed. */
  ghost function Firings(expr: string, t: TaskId, after: int, ticks: seq<TickRun>): nat
    requires forall i | 0 <= i < |ticks| :: |ticks[i].notes| == |ticks[i].due|
    decreases |ticks|
  {
    hide MinutePassed, ComputedFor;
    if ticks == [] then 0
    else if MinutePassed(expr, after, ticks[0].now) then 1 + Firings(expr, t, ComputedFor(ticks[0], t), ticks[1..])
    else Firings(expr, t, after, ticks[1..])
  }

  lemma {:induction false} NotesFit(db: Db, ticks: seq<TickRun>)
    requires AreTicks(db, ticks)
    ensures forall i | 0 <= i < |ticks| :: |ticks[i].notes| == |ticks[i].due|
    decreases |ticks|
  {
    hide ListsDue;
    if ticks != [] {
      NotesFit(AfterTick(db, ticks[0]), ticks[1..]);
      assert forall i | 1 <= i < |ticks| :: ticks[i] == ticks[1..][i - 1];
    }
  }

  /** The schedule-triggered runs that a series of Ticks adds for an active cron task are exactly those firings. */
  lemma {:induction false} TicksFireExactly(db: Db, ticks: seq<TickRun>, t: TaskId, after: int)
    requires AreTicks(db, ticks) && t in db.tasks && ScheduledSince(db.tasks[t], after)
    ensures forall i | 0 <= i < |ticks| :: |ticks[i].notes| == |ticks[i].due|
    ensures |ScheduledRows(AfterTicks(db, ticks).runs, t)|
            == |ScheduledRows(db.runs, t)| + Firings(db.tasks[t].cronExpr, t, after, ticks)
    decreases |ticks|
  {
    hide IsTick, AfterTick, MinutePassed, ScheduledSince, ScheduledRows, ComputedFor;
    NotesFit(db, ticks);
    if ticks != [] {
      var db1 := AfterTick(db, ticks[0]);
      TickFiresIff(db, ticks[0], t, after);
      var after1 := if MinutePassed(db.tasks[t].cronExpr, after, ticks[0].now) then ComputedFor(ticks[0], t) else after;
      TicksFireExactly(db1, ticks[1..], t, after1);
    }
  }

  // ---------- once and delayed tasks ----------

  /** The rows of the runs whose trigger is the schedule and whose task is t have gained exactly r, scheduled at now. */
  ghost predicate FiredOnce(runs: map<RunId, Run>, runs': map<RunId, Run>, t: TaskId, r: RunId, now: int) {
    && r !in runs && ScheduledRows(runs', t) == ScheduledRows(runs, t) + {r}
    && r in runs' && runs'[r].scheduledAt == now
  }

  /** One Tick fires a once or delayed task exactly when the task is enabled, not paused, and its next run time has
      come; it then has none any more. */
  lemma PlainTaskFiresIff(db: Db, tick: TickRun, t: TaskId)
    requires IsTick(db, tick) && t in db.tasks && db.tasks[t].specType != SpecCron
    ensures var db', row := AfterTick(db, tick), db.tasks[t];
            && t in db'.tasks
            && if row.enabled && !row.paused && 0 < row.nextRunAt <= tick.now then
                 && (exists r :: FiredOnce(db.runs, db'.runs, t, r, tick.now))
                 && db'.tasks[t] == row.(nextRunAt := 0, lastRunAt := tick.now, updatedAt := db'.tasks[t].updatedAt)
               else ScheduledRows(db'.runs, t) == ScheduledRows(db.runs, t) && db'.tasks[t] == row
  {
    hide NextDue, IsDueList, IsTick;
    IsTickIff(db, tick);
    var db' := AfterTick(db, tick);
    TickKeepsPromise(db, tick.now, tick.due, tick.notes);
    NewRowsCount(db, tick.now, db', t);
    if t in DueIds(db, tick.now) {
      OneNewRow(db, tick.now, db', t);
    }
  }

  lemma OneNewRow(db: Db, now: int, db': Db, t: TaskId)
    requires TickResult(db, now, db') && t in DueIds(db, now)
    ensures exists r :: FiredOnce(db.runs, db'.runs, t, r, now)
  {
    hide Advanced, IsDue;
    var r :| NewRunsOf(db, db', t) == {r} && RanOnSchedule(db', r, now);
    assert r in NewRunsOf(db, db', t);
    assert ScheduledRows(db'.runs, t) == ScheduledRows(db.runs, t) + {r};
    assert FiredOnce(db.runs, db'.runs, t, r, now);
  }

  lemma OldRowsStay(db: Db, tick: TickRun)
    requires IsTick(db, tick)
    ensures forall id | id in db.runs :: id in AfterTick(db, tick).runs && AfterTick(db, tick).runs[id] == db.runs[id]
  {
    hide IsDueList, IsTick, DispatchAll;
    IsTickIff(db, tick);
    TickKeepsPromise(db, tick.now, tick.due, tick.notes);
  }

  lemma {:induction false} RowsStay(db: Db, ticks: seq<TickRun>)
    requires AreTicks(db, ticks)
    ensures var db' := AfterTicks(db, ticks);
            forall id | id in db.runs :: id in db'.runs && db'.runs[id] == db.runs[id]
    decreases |ticks|
  {
    hide IsTick, AfterTick;
    if ticks != [] {
      OldRowsStay(db, ticks[0]);
      RowsStay(AfterTick(db, ticks[0]), ticks[1..]);
    }
  }

  /** A once or delayed task is left alone by a series of Ticks none of which reaches its next run time, or that find it
      disabled, paused, or without one. */
  lemma {:induction false} PlainTaskWaits(db: Db, ticks: seq<TickRun>, t: TaskId)
    requires AreTicks(db, ticks) && t in db.tasks && db.tasks[t].specType != SpecCron
    requires var row := db.tasks[t];
             row.enabled && !row.paused && 0 < row.nextRunAt ==>
               forall i | 0 <= i < |ticks| :: ticks[i].now < row.nextRunAt
    ensures var db' := AfterTicks(db, ticks);
            t in db'.tasks && db'.tasks[t] == db.tasks[t] && ScheduledRows(db'.runs, t) == ScheduledRows(db.runs, t)
    decreases |ticks|
  {
    hide IsTick, AfterTick, ScheduledRows;
    if ticks != [] {
      PlainTaskFiresIff(db, ticks[0], t);
      assert forall i | 0 <= i < |ticks[1..]| :: ticks[1..][i] == ticks[i + 1];
      PlainTaskWaits(AfterTick(db, ticks[0]), ticks[1..], t);
    }
  }

  /** An enabled, unpaused once or delayed task with a next run time is fired exactly once by a series of Ticks that
      reaches that time, by the first Tick that does, and has no next run time afterwards. */
  lemma {:induction false} PlainTaskFiresOnce(db: Db, ticks: seq<TickRun>, t: TaskId, first: nat)
    requires AreTicks(db, ticks) && t in db.tasks && db.tasks[t].specType != SpecCron
    requires db.tasks[t].enabled && !db.tasks[t].paused && 0 < db.tasks[t].nextRunAt
    requires first < |ticks| && db.tasks[t].nextRunAt <= ticks[first].now
    requires forall i | 0 <= i < first :: ticks[i].now < db.tasks[t].nextRunAt
    ensures var db' := AfterTicks(db, ticks);
            && t in db'.tasks && db'.tasks[t].nextRunAt == 0
            && exists r :: FiredOnce(db.runs, db'.runs, t, r, ticks[first].now)
    decreases |ticks|
  {
    hide IsTick, AfterTick, FiredOnce;
    var db1 := AfterTick(db, ticks[0]);
    PlainTaskFiresIff(db, ticks[0], t);
    var rest := ticks[1..];
    assert forall i | 0 <= i < |rest| :: rest[i] == ticks[i + 1];
    if first == 0 {
      var r :| FiredOnce(db.runs, db1.runs, t, r, ticks[0].now);
      PlainTaskWaits(db1, rest, t);
      RowsStay(db1, rest);
      assert r in db1.runs by { FiredRow(db.runs, db1.runs, t, r, ticks[0].now); }
      FiredStays(db.runs, db1.runs, AfterTicks(db1, rest).runs, t, r, ticks[0].now);
    } else {
      PlainTaskFiresOnce(db1, rest, t, first - 1);
      var r :| FiredOnce(db1.runs, AfterTicks(db1, rest).runs, t, r, rest[first - 1].now);
      OldRowsStay(db, ticks[0]);
      FiredLater(db.runs, db1.runs, AfterTicks(db1, rest).runs, t, r, ticks[first].now);
    }
  }

  lemma FiredRow(a: map<RunId, Run>, b: map<RunId, Run>, t: TaskId, r: RunId, now: int)
    requires FiredOnce(a, b, t, r, now)
    ensures r in b
  {
  }

  lemma FiredStays(a: map<RunId, Run>, b: map<RunId, Run>, c: map<RunId, Run>, t: TaskId, r: RunId, now: int)
    requires FiredOnce(a, b, t, r, now) && ScheduledRows(c, t) == ScheduledRows(b, t) && r in c && c[r] == b[r]
    ensures FiredOnce(a, c, t, r, now)
  {
  }

  lemma FiredLater(a: map<RunId, Run>, b: map<RunId, Run>, c: map<RunId, Run>, t: TaskId, r: RunId, now: int)
    requires FiredOnce(b, c, t, r, now) && ScheduledRows(b, t) == ScheduledRows(a, t) && a.Keys <= b.Keys
    ensures FiredOnce(a, c, t, r, now)
  {
  }

  /** A once task that was created without a time, at a time after 1970 began, is run by the first Tick from then on,
      and never again. */
  lemma OnceTaskRunsAtOnce(db: Db, ticks: seq<TickRun>, spec: Task, t: Task)
    requires spec.specType == SpecOnce && spec.nextRunAt == 0 && spec.enabled && !spec.paused && 0 < t.createdAt
    requires t == spec.(tags := t.tags, createdAt := t.createdAt, updatedAt := t.updatedAt, nextRunAt := t.createdAt)
    requires AreTicks(db, ticks) && t.id in db.tasks && db.tasks[t.id] == t
    requires ticks != [] && t.createdAt <= ticks[0].now
    ensures exists r :: FiredOnce(db.runs, AfterTicks(db, ticks).runs, t.id, r, ticks[0].now)
  {
    PlainTaskFiresOnce(db, ticks, t.id, 0);
  }
}

/** The incremental counters of stats_daily against a recount of the runs. */
module EngineStats {
  import opened Prelude
  import opened Model
  import opened Tables
  import opened Engine
  import opened EngineInvariants
  import opened DayKeys

  /** The rows of a day that have the status. */
  function RowsOn(runs: map<RunId, Run>, day: int, status: RunStatus): set<RunId> {
    set id | id in runs && runs[id].status == status && DayOfMs(runs[id].scheduledAt) == day
  }

  /** The counters of every day are at least the recount, and equal to it as long as nothing was deleted. */
  ghost predicate CountersOk(db: Db, deleted: bool) {
    forall day ::
      var st, ok, bad := StatOf(db, day), |RowsOn(db.runs, day, Succeeded)|, |RowsOn(db.runs, day, Failed)|;
      && ok <= st.succeeded && bad <= st.failed && st.running == 0
      && (!deleted ==> st.succeeded == ok && st.failed == bad)
  }

  /** A worker's row is still there unless something was deleted. */
  ghost predicate WorkersHaveRows(s: State) {
    !s.deleted ==> forall id | id in s.workers :: id in s.db.runs
  }

  ghost predicate StatsOk(s: State) {
    CountersOk(s.db, s.deleted) && WorkersHaveRows(s)
  }

  /** The recount only sees succeeded and failed rows. */
  lemma SameRecount(db: Db, db': Db, deleted: bool, deleted': bool)
    requires CountersOk(db, deleted) && db'.stats == db.stats && (deleted ==> deleted')
    requires forall id | id in db'.runs && (db'.runs[id].status == Succeeded || db'.runs[id].status == Failed) ::
               id in db.runs && db.runs[id].status == db'.runs[id].status
                   && db.runs[id].scheduledAt == db'.runs[id].scheduledAt
    requires !deleted' ==> forall id | id in db.runs
                 && (db.runs[id].status == Succeeded || db.runs[id].status == Failed) ::
               id in db'.runs && db.runs[id].status == db'.runs[id].status
                   && db.runs[id].scheduledAt == db'.runs[id].scheduledAt
    ensures CountersOk(db', deleted')
  {
    forall day
      ensures |RowsOn(db'.runs, day, Succeeded)| <= |RowsOn(db.runs, day, Succeeded)|
      ensures |RowsOn(db'.runs, day, Failed)| <= |RowsOn(db.runs, day, Failed)|
      ensures !deleted' ==> RowsOn(db'.runs, day, Succeeded) == RowsOn(db.runs, day, Succeeded)
      ensures !deleted' ==> RowsOn(db'.runs, day, Failed) == RowsOn(db.runs, day, Failed)
    {
      SubsetSize(RowsOn(db'.runs, day, Succeeded), RowsOn(db.runs, day, Succeeded));
      SubsetSize(RowsOn(db'.runs, day, Failed), RowsOn(db.runs, day, Failed));
    }
    assert forall day :: StatOf(db', day) == StatOf(db, day);
  }

  /** Finishing a row counts it on its day. */
  lemma FinishCounts(db: Db, run: Run, ok: bool, at: int, deleted: bool)
    requires CountersOk(db, deleted) && (run.id !in db.runs ==> deleted)
    requires run.id in db.runs ==> !Terminal(db.runs[run.id].status) && db.runs[run.id].scheduledAt == run.scheduledAt
    ensures CountersOk(FinishRun(db, run, ok, at), deleted)
  {
    var db' := FinishRun(db, run, ok, at);
    var day := DayOfMs(run.scheduledAt);
    FinishRows(db, run, ok, at);
    FinishStats(db, run, ok, at);
    hide FinishRun;
    forall d
      ensures |RowsOn(db'.runs, d, Succeeded)|
              == |RowsOn(db.runs, d, Succeeded)| + (if run.id in db.runs && d == day && ok then 1 else 0)
      ensures |RowsOn(db'.runs, d, Failed)|
              == |RowsOn(db.runs, d, Failed)| + (if run.id in db.runs && d == day && !ok then 1 else 0)
    {
      OneMoreRow(db, db', run, d, Succeeded, ok);
      OneMoreRow(db, db', run, d, Failed, !ok);
    }
  }

  lemma OneMoreRow(db: Db, db': Db, run: Run, d: int, status: RunStatus, counts: bool)
    requires status == Succeeded || status == Failed
    requires run.id in db.runs ==> !Terminal(db.runs[run.id].status) && db.runs[run.id].scheduledAt == run.scheduledAt
    requires db'.runs.Keys == db.runs.Keys && forall id | id in db.runs && id != run.id :: db'.runs[id] == db.runs[id]
    requires run.id in db.runs ==>
               db'.runs[run.id].scheduledAt == run.scheduledAt && (db'.runs[run.id].status == status <==> counts)
    ensures |RowsOn(db'.runs, d, status)|
            == |RowsOn(db.runs, d, status)| + (if run.id in db.runs && d == DayOfMs(run.scheduledAt)
                && counts then 1 else 0)
  {
    if run.id in db.runs && d == DayOfMs(run.scheduledAt) && counts {
      assert RowsOn(db'.runs, d, status) == RowsOn(db.runs, d, status) + {run.id};
    } else {
      assert RowsOn(db'.runs, d, status) == RowsOn(db.runs, d, status);
    }
  }

  lemma FinishStats(db: Db, run: Run, ok: bool, at: int)
    ensures forall d :: StatOf(FinishRun(db, run, ok, at), d) ==
              var st := StatOf(db, d);
              if d != DayOfMs(run.scheduledAt) then st
              else if ok then st.(succeeded := st.succeeded + 1) else st.(failed := st.failed + 1)
  {
  }

  lemma QuietKeepsStats(s: State, s': State)
    requires StatsOk(s) && QuietStep(s, s') && forall id | id in s.db.runs :: id in s.runLog
    ensures StatsOk(s')
  {
    hide CountersOk;
    SameRecount(s.db, s'.db, s.deleted, s'.deleted);
  }

  lemma FinishKeepsStats(s: State, id: RunId, ok: bool, at: int)
    requires Basic(s) && StatsOk(s) && id in s.workers
    ensures StatsOk(DoFinish(s, id, ok, at))
  {
    hide RunsLogged, TasksLogged, LogsAgree, RequestsLogged, TickerLogged, FinishRun, CountersOk;
    FinishCounts(s.db, s.workers[id].run, ok, at, s.deleted);
    FinishRows(s.db, s.workers[id].run, ok, at);
  }

  lemma RecoverKeepsStats(s: State, retries: map<RunId, RunId>, marked: map<RunId, int>)
    requires StatsOk(s) && IsRecovery(s, retries, marked)
    ensures StatsOk(DoRecover(s, retries, marked))
  {
    hide RecoverRuns, RetriesAll, CountersOk;
    RecoveredRows(s.db, retries, marked);
    SameRecount(s.db, RecoverRuns(s.db, retries, marked), s.deleted, s.deleted);
  }

  /** Every event keeps the counters in agreement with the recount. */
  lemma StepKeepsStats(s: State, e: Event)
    requires Basic(s) && StatsOk(s) && Allowed(s, e)
    ensures StatsOk(Apply(s, e))
  {
    hide Basic, StatsOk, QuietStep, RetriesAll, DoFinish, DoRecover;
    if e.Finish? {
      FinishKeepsStats(s, e.id, e.ok, e.at);
    } else if e.Recover? {
      RecoverKeepsStats(s, e.retries, e.marked);
    } else {
      hide Allowed, Apply;
      EventIsQuiet(s, e);
      RowsAreLogged(s);
      QuietKeepsStats(s, Apply(s, e));
    }
  }

  lemma {:induction false} AlwaysStats(s: State, es: seq<Event>)
    requires Basic(s) && StatsOk(s) && Possible(s, es)
    ensures StatsOk(After(s, es))
    decreases |es|
  {
    hide Basic, StatsOk, Allowed, Apply;
    if es != [] {
      StepKeepsBasic(s, es[0]);
      StepKeepsStats(s, es[0]);
      AlwaysStats(Apply(s, es[0]), es[1..]);
    }
  }

  // ---------- sums over days, and OverallStats ----------

  /** The sum of a day's counter over the days. */
  ghost function SumOver(days: set<int>, counter: int -> nat): nat {
    if days == {} then 0
    else
      SomeElement(days);
      var d :| d in days;
      counter(d) + SumOver(days - {d}, counter)
  }

  function CounterOf(st: DailyStat, status: RunStatus): nat {
    if status == Succeeded then st.succeeded else st.failed
  }

  ghost function SumOfDays(db: Db, days: set<int>, status: RunStatus): nat {
    SumOver(days, (d: int) => CounterOf(StatOf(db, d), status))
  }

  ghost function RowsIn(runs: map<RunId, Run>, days: set<int>, status: RunStatus): set<RunId> {
    set id | id in runs && runs[id].status == status && DayOfMs(runs[id].scheduledAt) in days
  }

  lemma SumStep(days: set<int>, counter: int -> nat) returns (d: int)
    requires days != {}
    ensures d in days && SumOver(days, counter) == counter(d) + SumOver(days - {d}, counter)
  {
    SomeElement(days);
    d :| d in days && SumOver(days, counter) == counter(d) + SumOver(days - {d}, counter);
  }

  lemma RowsOfOneMoreDay(db: Db, days: set<int>, d: int, status: RunStatus)
    requires d in days
    ensures |RowsIn(db.runs, days, status)| == |RowsIn(db.runs, days - {d}, status)| + |RowsOn(db.runs, d, status)|
  {
    hide DayOfMs;
    assert RowsIn(db.runs, days, status) == RowsIn(db.runs, days - {d}, status) + RowsOn(db.runs, d, status);
    assert RowsIn(db.runs, days - {d}, status) !! RowsOn(db.runs, d, status);
  }

  lemma {:induction false} SumIsRecount(db: Db, days: set<int>, status: RunStatus, counter: int -> nat)
    requires forall d :: counter(d) == |RowsOn(db.runs, d, status)|
    ensures SumOver(days, counter) == |RowsIn(db.runs, days, status)|
    decreases days
  {
    if days == {} {
      assert RowsIn(db.runs, days, status) == {};
    } else {
      hide SumOver, RowsIn, RowsOn;
      var d := SumStep(days, counter);
      SumIsRecount(db, days - {d}, status, counter);
      RowsOfOneMoreDay(db, days, d, status);
    }
  }

  lemma CountersAt(db: Db, day: int)
    requires CountersOk(db, false)
    ensures StatOf(db, day).succeeded == |RowsOn(db.runs, day, Succeeded)|
    ensures StatOf(db, day).failed == |RowsOn(db.runs, day, Failed)|
  {
  }

  /** Without deletions, the counters summed over all days are the totals of OverallStats; orphaned runs, which
      OverallStats adds to the failed ones, are in no day's counter. */
  lemma SumsAreTotals(db: Db)
    requires CountersOk(db, false)
    ensures SumOfDays(db, db.stats.Keys, Succeeded) == OverallRuns(db).succeeded
    ensures SumOfDays(db, db.stats.Keys, Failed) == OverallRuns(db).failed - OverallRuns(db).orphaned
  {
    hide CountersOk;
    forall d ensures forall st | st == Succeeded
        || st == Failed :: CounterOf(StatOf(db, d), st) == |RowsOn(db.runs, d, st)| {
      CountersAt(db, d);
    }
    SumIsRecount(db, db.stats.Keys, Succeeded, (d: int) => CounterOf(StatOf(db, d), Succeeded));
    SumIsRecount(db, db.stats.Keys, Failed, (d: int) => CounterOf(StatOf(db, d), Failed));
    forall id | id in db.runs && (db.runs[id].status == Succeeded || db.runs[id].status == Failed)
      ensures DayOfMs(db.runs[id].scheduledAt) in db.stats.Keys
    {
      var d := DayOfMs(db.runs[id].scheduledAt);
      CountersAt(db, d);
      assert id in RowsOn(db.runs, d, db.runs[id].status);
    }
    assert RowsIn(db.runs, db.stats.Keys, Succeeded) == RowsWith(db.runs, Succeeded);
    assert RowsIn(db.runs, db.stats.Keys, Failed) == RowsWith(db.runs, Failed);
    assert RowsWith(db.runs, Failed) !! RowsWith(db.runs, Orphaned);
  }
}

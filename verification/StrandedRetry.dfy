/** A concrete run of the engine that strands a retry: a task is created and triggered, the process dies while the run
    executes, recovery commits the retry, and the process dies again before it is executed. */
module StrandedRetry {
  import opened Text
  import opened Model
  import opened Tables
  import opened Engine
  import opened EngineTheorems
  import opened FaultFree
  import opened SchedulerSteps

  /** Runs once, a second after its creation at 0, with a budget of one retry. */
  const TASK := Task(0, "a", KindNoop, SpecDelayed, "", 1, true, false, "", 1, 0, 0, 0, 1000, 0)

  const RUN := NewRun(0, 0, ByHand, 0)

  lemma TaskIsValid()
    ensures ValidTask(TASK) && FirstDue(TASK, 0)
  {
    TrimSpaceTrims("a");
  }

  lemma Continue(es: seq<Event>, s: State, e: Event)
    requires Reaches(es, s) && Allowed(s, e)
    ensures Reaches(es + [e], Apply(s, e))
  {
    hide Possible, After, Allowed, Apply;
    AfterAppend(Init, es, e);
  }

  /** The first start of the process finds nothing to recover. */
  lemma FirstStart() returns (es: seq<Event>, s: State)
    ensures Reaches(es, s) && Idling(s) && s.clock == 0 && s.runLog.Keys == {} && s.taskLog == map[]
    ensures s.db.tasks == map[] && s.db.runs == map[]
  {
    hide Allowed, Apply;
    es, s := [], Init;
    RecoverStep(s, map[], map[], []);
    Continue(es, s, Recover(map[], map[]));
    es, s := es + [Recover(map[], map[])], Apply(s, Recover(map[], map[]));
    RecoverDoneStep(s, []);
    Continue(es, s, RecoverDone);
    es, s := es + [RecoverDone], Apply(s, RecoverDone);
  }

  /** The task is created, triggered by hand, and its run is executing. */
  lemma TaskTriggered() returns (es: seq<Event>, s: State)
    ensures Reaches(es, s) && s.phase == Up && s.clock == 0 && s.runLog.Keys == {0}
    ensures s.db.tasks == map[0 := TASK] && s.db.runs == map[0 := RUN]
  {
    hide Reaches, Allowed, Apply, ValidTask, FirstDue, CreatesRun;
    TaskIsValid();
    es, s := FirstStart();
    var create := ScheduleNew(TASK);
    ScheduleNewStep(s, TASK);
    Continue(es, s, create);
    es, s := es + [create], Apply(s, create);
    ReadTriggerStep(s, 0);
    Continue(es, s, ReadTrigger(0));
    es, s := es + [ReadTrigger(0)], Apply(s, ReadTrigger(0));
    var write := WriteTrigger(TriggerRequest(TASK), 0, 0);
    WriteTriggerStep(s, TriggerRequest(TASK), 0, 0);
    Continue(es, s, write);
    CreatedRows(s, write, RUN);
    es, s := es + [write], Apply(s, write);
  }

  lemma CreatedRows(s: State, e: Event, run: Run)
    requires CreatesRun(s, e, run)
    ensures var s' := Apply(s, e);
            && s'.db.runs == s.db.runs[run.id := run] && s'.db.tasks == s.db.tasks && s'.clock == s.clock
            && s'.runLog.Keys == s.runLog.Keys + {run.id}
  {
    hide Allowed, Apply;
  }

  lemma CrashStep(s: State)
    requires s.phase != Down
    ensures Allowed(s, Crash)
    ensures var s' := Apply(s, Crash);
            && s'.phase == Down && s'.ticker == Idle && s'.requests == multiset{} && s'.workers == map[]
            && s'.db == s.db && s'.clock == s.clock && s'.runLog == s.runLog
  {
    hide CountAbort;
  }

  /** What recovery has to do after the first crash: one orphan, within budget. */
  lemma OneOrphan(db: Db)
    requires db.tasks == map[0 := TASK] && db.runs == map[0 := RUN]
    ensures OrphanIds(db) == {0} && RetriesAll(db, map[1 := 0])
    ensures var db' := RecoverRuns(db, map[1 := 0], map[0 := 0]);
            && 1 in db'.runs && db'.runs[1] == RetryOf(RUN, 1, 0)
            && ListsRetries(db', map[1 := 0], [RetryOf(RUN, 1, 0)])
  {
    assert RetriableIds(db) == {0};
    var retries: map<RunId, RunId> := map[1 := 0];
    forall o | o in RetriableIds(db) ensures exists id :: id in retries && retries[id] == o {
      assert 1 in retries && retries[1] == o;
    }
    var runs := [RetryOf(RUN, 1, 0)];
    forall id | id in retries ensures exists i :: 0 <= i < |runs| && runs[i].id == id {
      assert runs[0].id == id;
    }
  }

  /** A reachable state in which the process can die with a pending retry, which is then never executed. */
  lemma RetryIsStranded() returns (es: seq<Event>, s: State, id: RunId)
    ensures Reaches(es, s) && Allowed(s, Crash) && id in s.db.runs && s.db.runs[id].status == Pending
    ensures Reaches(es + [Crash], Apply(s, Crash)) && !CanEnd(Apply(s, Crash), id)
  {
    hide Reaches, Allowed, Apply, RetriesAll, RecoverRuns, ListsRetries, CanEnd;
    es, s := TaskTriggered();
    CrashStep(s);
    Continue(es, s, Crash);
    es, s := es + [Crash], Apply(s, Crash);
    OneOrphan(s.db);
    RecoverStep(s, map[1 := 0], map[0 := 0], [RetryOf(RUN, 1, 0)]);
    var recover := Recover(map[1 := 0], map[0 := 0]);
    Continue(es, s, recover);
    es, s, id := es + [recover], Apply(s, recover), 1;
    CrashStep(s);
    Continue(es, s, Crash);
    PendingEndsIff(es + [Crash], Apply(s, Crash), id);
  }
}

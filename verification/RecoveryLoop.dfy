/** The loop of Recover over the orphaned runs: what it has done after each of them. */
module RecoveryLoop {
  import opened Model
  import opened Tables
  import opened FaultFree
  import opened Store

  /** A retry that recovery will execute after its transaction. */
  datatype PendingRetry = PendingRetry(task: Task, run: Run)

  /** Each run is executed with its task as the transaction found it. */
  ghost predicate Executes(toExec: seq<PendingRetry>, runs: seq<Run>, tasks: map<TaskId, Task>) {
    |toExec| == |runs|
    && forall i | 0 <= i < |runs| ::
         && toExec[i].run == runs[i] && toExec[i].task.id == runs[i].taskId
         && runs[i].taskId in tasks && toExec[i].task == tasks[runs[i].taskId]
  }

  /** What the recovery loop has done: the orphan each retry belongs to, the time of each mark,
      and the retries in order. */
  datatype Progress = Progress(retries: map<RunId, RunId>, marked: map<RunId, int>, runs: seq<Run>)

  /** Times and identifiers a process can have handed out between two moments. */
  datatype Span = Span(firstId: RunId, nextId: RunId, start: int, end: int)

  ghost predicate InSpan(p: Progress, db: Db, span: Span) {
    && span.firstId <= span.nextId && span.start <= span.end
    && (forall id | id in p.retries :: span.firstId <= id < span.nextId)
    && (forall id | id in db.runs :: id < span.nextId)
    && (forall id | id in p.marked :: span.start <= p.marked[id] <= span.end)
  }

  ghost predicate MarksFirst(orphans: seq<Run>, i: nat, marked: map<RunId, int>) {
    i <= |orphans| && forall id :: id in marked <==> exists j :: 0 <= j < i && orphans[j].id == id
  }

  /** The recovery loop after i orphans. */
  ghost predicate Midway(db0: Db, orphans: seq<Run>, i: nat, p: Progress, db: Db, toExec: seq<PendingRetry>,
                         span: Span) {
    && Keyed(db0.runs) && IsOrphanList(db0, orphans) && MarksFirst(orphans, i, p.marked)
    && PartlyRecovered(db0, p.retries, p.marked, db)
    && ListsRetries(db, p.retries, p.runs) && Executes(toExec, p.runs, db0.tasks) && InSpan(p, db, span)
  }

  lemma RecoveryStarts(db0: Db, orphans: seq<Run>, span: Span)
    requires Keyed(db0.runs) && IsOrphanList(db0, orphans)
    requires span.firstId <= span.nextId && span.start <= span.end && forall id | id in db0.runs :: id < span.nextId
    ensures Midway(db0, orphans, 0, Progress(map[], map[], []), db0, [], span)
  {
    hide IsOrphanList, PartlyRecovered, ListsRetries;
    NothingRecoveredYet(db0);
    NothingListed(db0);
  }

  /** What the recovery loop knows of the next orphan. */
  lemma OrphanCase(db0: Db, orphans: seq<Run>, i: nat, p: Progress, db: Db, toExec: seq<PendingRetry>, span: Span)
    requires Midway(db0, orphans, i, p, db, toExec, span) && i < |orphans|
    ensures var o := orphans[i];
            && o.id in OrphanIds(db0) && db0.runs[o.id] == o && o.id !in p.marked
            && (o.id in RetriableIds(db0) <==> o.taskId in db.tasks && o.attempt <= db.tasks[o.taskId].maxRetries)
    ensures span.nextId !in db.runs
  {
    hide RetriesMade, ListsRetries, Executes;
  }

  lemma UpdateKeepsKeys(db: Db, o: Run, at: int)
    ensures UpdateRunStatus(db, o.id, Orphaned, o.startedAt, at).runs.Keys == db.runs.Keys
  {
  }

  lemma MarksOneMore(orphans: seq<Run>, i: nat, marked: map<RunId, int>, at: int)
    requires MarksFirst(orphans, i, marked) && i < |orphans|
    ensures MarksFirst(orphans, i + 1, marked[orphans[i].id := at])
  {
  }

  lemma MarkInSpan(p: Progress, db: Db, span: Span, o: Run, at: int)
    requires InSpan(p, db, span) && span.start <= at <= span.end
    ensures InSpan(p.(marked := p.marked[o.id := at]), UpdateRunStatus(db, o.id, Orphaned, o.startedAt, at), span)
  {
  }

  lemma RetryInSpan(p: Progress, db: Db, span: Span, o: Run, at: int)
    requires InSpan(p, db, span) && span.start <= at <= span.end
    ensures var r := RetryOf(o, span.nextId, at);
            InSpan(Progress(p.retries[r.id := o.id], p.marked[o.id := at], p.runs + [r]),
                   CreateRun(UpdateRunStatus(db, o.id, Orphaned, o.startedAt, at), r), span.(nextId := span.nextId + 1))
  {
  }

  lemma ExecutesMore(toExec: seq<PendingRetry>, runs: seq<Run>, tasks: map<TaskId, Task>, task: Task, run: Run)
    requires Executes(toExec, runs, tasks)
    requires task.id == run.taskId && run.taskId in tasks && task == tasks[run.taskId]
    ensures Executes(toExec + [PendingRetry(task, run)], runs + [run], tasks)
  {
  }

  lemma OrphanMarked(db0: Db, orphans: seq<Run>, i: nat, p: Progress, db: Db, toExec: seq<PendingRetry>, span: Span,
                     at: int)
    requires Midway(db0, orphans, i, p, db, toExec, span) && i < |orphans|
    requires orphans[i].id !in RetriableIds(db0) && span.start <= at <= span.end
    ensures Midway(db0, orphans, i + 1, p.(marked := p.marked[orphans[i].id := at]),
                   UpdateRunStatus(db, orphans[i].id, Orphaned, orphans[i].startedAt, at), toExec, span)
  {
    OrphanCase(db0, orphans, i, p, db, toExec, span);
    hide PartlyRecovered, ListsRetries, Executes, Keyed, IsOrphanList, OrphanIds, RetriableIds, MarksFirst, InSpan,
        UpdateRunStatus;
    MarkOne(db0, p.retries, p.marked, db, p.runs, orphans[i], at);
    MarksOneMore(orphans, i, p.marked, at);
    MarkInSpan(p, db, span, orphans[i], at);
  }

  lemma OrphanRetried(db0: Db, orphans: seq<Run>, i: nat, p: Progress, db: Db, toExec: seq<PendingRetry>, span: Span,
                      at: int, task: Task)
    requires Midway(db0, orphans, i, p, db, toExec, span) && i < |orphans|
    requires orphans[i].id in RetriableIds(db0) && span.start <= at <= span.end
    requires task.id == orphans[i].taskId && task.id in db.tasks && task == db.tasks[task.id]
    ensures var o, id := orphans[i], span.nextId;
            var r := RetryOf(o, id, at);
            Midway(db0, orphans, i + 1, Progress(p.retries[id := o.id], p.marked[o.id := at], p.runs + [r]),
                   CreateRun(UpdateRunStatus(db, o.id, Orphaned, o.startedAt, at), r), toExec + [PendingRetry(task, r)],
                   span.(nextId := id + 1))
  {
    OrphanCase(db0, orphans, i, p, db, toExec, span);
    assert db.tasks == db0.tasks;
    ExecutesMore(toExec, p.runs, db0.tasks, task, RetryOf(orphans[i], span.nextId, at));
    hide PartlyRecovered, ListsRetries, Executes, Keyed, IsOrphanList, OrphanIds, RetriableIds, MarksFirst, InSpan,
        UpdateRunStatus;
    hide CreateRun;
    RetryOne(db0, p.retries, p.marked, db, p.runs, orphans[i], at, span.nextId);
    MarksOneMore(orphans, i, p.marked, at);
    RetryInSpan(p, db, span, orphans[i], at);
  }

  lemma RecoveryGoesOn(db0: Db, orphans: seq<Run>, i: nat, p: Progress, db: Db, toExec: seq<PendingRetry>, span: Span,
                       end: int)
    requires Midway(db0, orphans, i, p, db, toExec, span) && span.end <= end
    ensures Midway(db0, orphans, i, p, db, toExec, span.(end := end))
  {
    hide PartlyRecovered, ListsRetries, Executes, Keyed, IsOrphanList;
  }

  lemma RecoveryEnds(db0: Db, orphans: seq<Run>, p: Progress, db: Db, toExec: seq<PendingRetry>, span: Span)
    requires Midway(db0, orphans, |orphans|, p, db, toExec, span)
    ensures p.marked.Keys == OrphanIds(db0) && RetriesAll(db0, p.retries) && db == RecoverRuns(db0, p.retries, p.marked)
    ensures ListsRetries(db, p.retries, p.runs) && Executes(toExec, p.runs, db0.tasks) && InSpan(p, db, span)
  {
    hide PartlyRecovered, ListsRetries, Executes, Keyed, InSpan, MarksFirst, RetriesAll, RecoverRuns;
    AllMarked(db0, orphans, p.marked);
    AllRecovered(db0, p.retries, p.marked, db);
  }

  lemma AllMarked(db0: Db, orphans: seq<Run>, marked: map<RunId, int>)
    requires IsOrphanList(db0, orphans)
    requires MarksFirst(orphans, |orphans|, marked)
    ensures marked.Keys == OrphanIds(db0)
  {
  }
}

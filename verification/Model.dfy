/** The domain types of internal/model/model.go and the rules the engine relies on.
    Payloads, outputs, error texts, timeouts' effect and version numbers are left out. Times are Unix milliseconds. */
module Model {
  import opened Prelude
  import opened Text
  import opened CronNext
  import opened CronParse
  import opened CronProperties

  type TaskId = nat
  type RunId = nat

  datatype SpecType = SpecCron | SpecOnce | SpecDelayed | SpecOther(spec: string)
  datatype TaskKind = KindNoop | KindEcho | KindHTTP | KindFail | KindOther(kind: string)
  datatype RunStatus = Pending | Running | Succeeded | Failed | Orphaned
  datatype Trigger = BySchedule | ByHand | ByRetry

  datatype Task = Task(id: TaskId, name: string, kind: TaskKind, specType: SpecType, cronExpr: string,
                       delaySeconds: int, enabled: bool, paused: bool, tags: string,
                       maxRetries: int, timeoutSeconds: int,
                       createdAt: int, updatedAt: int, nextRunAt: int, lastRunAt: int)

  datatype Run = Run(id: RunId, taskId: TaskId, attempt: int, status: RunStatus,
                     scheduledAt: int, startedAt: int, finishedAt: int, trigger: Trigger)

  predicate Terminal(status: RunStatus) {
    status == Succeeded || status == Failed || status == Orphaned
  }

  predicate Active(t: Task) {
    t.enabled && !t.paused
  }

  /** Task.IsDue; a next run time of 0 means none. */
  predicate IsDue(t: Task, now: int) {
    if !t.enabled || t.paused then false else 0 < t.nextRunAt <= now
  }

  /** Task.Validate */
  ghost predicate ValidTask(t: Task) {
    && TrimSpace(t.name) != ""
    && !t.kind.KindOther?
    && (match t.specType
        case SpecCron => TrimSpace(t.cronExpr) != "" && ParseSpec(t.cronExpr).Some?
        case SpecOnce => true
        case SpecDelayed => 0 < t.delaySeconds
        case SpecOther(_) => false)
    && 0 <= t.maxRetries
    && 0 <= t.timeoutSeconds
  }

  /** Something remains of a text when it is trimmed if and only if it is not all white space. */
  lemma NotBlankIff(s: string)
    ensures TrimSpace(s) != "" <==> exists c :: c in s && !IsSpace(c)
  {
    hide TrimSpace, IsSpace;
    TrimSpaceTrims(s);
    if TrimSpace(s) != "" {
      var c := TrimSpace(s)[0];
      assert c in TrimSpace(s);
    }
    if c :| c in s && !IsSpace(c) {
      TrimSpaceKeeps(s, c);
    }
  }

  lemma BlankDoesNotParse(expr: string)
    ensures ParseSpec(expr).Some? ==> TrimSpace(expr) != ""
  {
    hide TrimSpace, CronParse.FieldValues;
    assert Fields("") == [];
  }

  /** A task is valid if and only if its name is not blank, its kind is one of the four, its schedule is a cron
      expression that parses, or once, or a positive delay, and neither number is negative. */
  method Validate(t: Task) returns (ok: bool)
    ensures ok == ValidTask(t)
    ensures ok <==>
              && (exists c :: c in t.name && !IsSpace(c))
              && (t.kind == KindNoop || t.kind == KindEcho || t.kind == KindHTTP || t.kind == KindFail)
              && ((t.specType == SpecCron && ParseSpec(t.cronExpr).Some?) || t.specType == SpecOnce
                  || (t.specType == SpecDelayed && t.delaySeconds >= 1))
              && t.maxRetries >= 0 && t.timeoutSeconds >= 0
  {
    NotBlankIff(t.name);
    BlankDoesNotParse(t.cronExpr);
    hide ParseSpec, TrimSpace;
    if TrimSpace(t.name) == "" || t.kind.KindOther? {
      return false;
    }
    match t.specType {
      case SpecCron =>
        if TrimSpace(t.cronExpr) == "" {
          return false;
        }
        var s := Parse(t.cronExpr);
        if s.None? {
          return false;
        }
      case SpecOnce =>
      case SpecDelayed =>
        if t.delaySeconds <= 0 {
          return false;
        }
      case SpecOther(_) => return false;
    }
    return t.maxRetries >= 0 && t.timeoutSeconds >= 0;
  }

  /** The time Task.ComputeNextCron gives; None for its errors. */
  ghost function NextCron(t: Task, from: int): Option<int> {
    if t.specType != SpecCron || ParseSpec(t.cronExpr).None? then None
    else match NextMatch(ParseSpec(t.cronExpr).value, from)
      case None => None
      case Some(m) => Some(m * MS_PER_MINUTE)
  }

  method ComputeNextCron(t: Task, from: int) returns (next: Option<int>)
    ensures next == NextCron(t, from)
  {
    hide ParseSpec, NextMatch;
    if t.specType != SpecCron {
      return None;
    }
    var s := Parse(t.cronExpr);
    if s.None? {
      return None;
    }
    var m, _ := Next(s.value, from);
    return if m.None? then None else Some(m.value * MS_PER_MINUTE);
  }

  /** ms is a whole minute at which the expression matches. */
  ghost predicate IsCronTime(expr: string, ms: int) {
    ParseSpec(expr).Some? && ms % MS_PER_MINUTE == 0 && Matches(ParseSpec(expr).value, ms / MS_PER_MINUTE)
  }

  /** Some allowed date of the expression exists in every year, on any weekday. */
  ghost predicate RunsEveryYear(expr: string) {
    ParseSpec(expr).Some? && HasYearlyDate(ParseSpec(expr).value)
  }

  /** What the engine needs to know of ComputeNextCron. */
  lemma NextCronIsLater(t: Task, from: int)
    ensures NextCron(t, from).Some? ==>
              from < NextCron(t, from).value && IsCronTime(t.cronExpr, NextCron(t, from).value)
    ensures t.specType == SpecCron && RunsEveryYear(t.cronExpr) ==> NextCron(t, from).Some?
  {
    hide ParseSpec, NextMatch, Matches, HasYearlyDate;
    if NextCron(t, from).Some? {
      var s := ParseSpec(t.cronExpr).value;
      NextMatchIsLeast(s, from, NextMatch(s, from).value);
    }
    if t.specType == SpecCron && RunsEveryYear(t.cronExpr) {
      YearlyDateIsFound(ParseSpec(t.cronExpr).value, from);
    }
  }
}

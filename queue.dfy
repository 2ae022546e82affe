/**
 * The migration task table and one pass of the worker over it
 * (`process_queue_once`), with the queue metrics it reports afterwards.
 *
 * The table is a sequence of task rows in storage order. A row is deleted by
 * removing it from the sequence; every other change reassigns the fields the
 * worker writes (status, error, attempts).
 */
module MigrationQueue {
  import opened Wrappers
  import opened Storage
  import opened Migrator
  import Text

  /**
   * A task's status. The status column is free text: `Other` holds any text
   * besides the five statuses the worker writes.
   */
  datatype Status = Queued | Running | Done | Failed | Cleanup | Other(text: string)

  /** A migration task row. `attempts` reads an empty column as 0. */
  datatype Task = Task(key: string, src: string, dst: string, status: Status, error: string, attempts: nat, createdAt: int)

  /** After this many failed runs a task is deleted. */
  const MaxAttempts: nat := 5
  /** More queued tasks than this raise a backlog alert. */
  const BacklogThreshold: nat := 20

  /** The statuses the queue metrics report. */
  const QueueStatuses: set<Status> := {Queued, Running, Done, Failed, Cleanup}

  /** A task the worker may pick up. */
  predicate Pending(t: Task) {
    t.status == Queued || t.status == Cleanup || t.status == Failed
  }

  // ---------------------------------------------------------------- metrics

  /** How many tasks of `tasks` have status `st`. */
  function CountStatus(tasks: seq<Task>, st: Status): nat {
    if tasks == [] then 0
    else CountStatus(tasks[..|tasks| - 1], st) + (if tasks[|tasks| - 1].status == st then 1 else 0)
  }

  /** The statuses that occur in `tasks`. */
  ghost function StatusesIn(tasks: seq<Task>): set<Status> {
    set i | 0 <= i < |tasks| :: tasks[i].status
  }

  /** How many tasks of `tasks` have a status other than the five the worker writes. */
  function CountOther(tasks: seq<Task>): nat {
    if tasks == [] then 0
    else CountOther(tasks[..|tasks| - 1]) + (if tasks[|tasks| - 1].status.Other? then 1 else 0)
  }

  datatype QueueMetrics = QueueMetrics(counts: map<Status, nat>, backlogAlert: bool)

  /** Every task is counted under exactly one status. */
  lemma {:induction false} CountsCoverTable(tasks: seq<Task>)
    ensures CountStatus(tasks, Queued) + CountStatus(tasks, Running) + CountStatus(tasks, Done)
      + CountStatus(tasks, Failed) + CountStatus(tasks, Cleanup) + CountOther(tasks) == |tasks|
  {
    if tasks != [] {
      CountsCoverTable(tasks[..|tasks| - 1]);
    }
  }

  /** A status that occurs nowhere in `tasks` counts 0. */
  lemma {:induction false} CountAbsent(tasks: seq<Task>, st: Status)
    requires st !in StatusesIn(tasks)
    ensures CountStatus(tasks, st) == 0
  {
    if tasks != [] {
      var init := tasks[..|tasks| - 1];
      assert StatusesIn(init) <= StatusesIn(tasks) by {
        forall s | s in StatusesIn(init) ensures s in StatusesIn(tasks) {
          var i :| 0 <= i < |init| && init[i].status == s;
          assert tasks[i].status == s;
        }
      }
      assert tasks[|tasks| - 1].status in StatusesIn(tasks);
      CountAbsent(init, st);
    }
  }

  lemma StatusesInSnoc(tasks: seq<Task>, i: nat)
    requires i < |tasks|
    ensures StatusesIn(tasks[..i + 1]) == StatusesIn(tasks[..i]) + {tasks[i].status}
  {
    var a, b := tasks[..i], tasks[..i + 1];
    forall s | s in StatusesIn(b) ensures s in StatusesIn(a) + {tasks[i].status} {
      var j :| 0 <= j < |b| && b[j].status == s;
      if j < i { assert a[j].status == s; }
    }
    forall s | s in StatusesIn(a) ensures s in StatusesIn(b) {
      var j :| 0 <= j < |a| && a[j].status == s;
      assert b[j].status == s;
    }
    assert b[i].status == tasks[i].status;
  }

  /** `counts` holds the count of every status of `tasks`, and of each of the five statuses. */
  ghost predicate CountsOf(counts: map<Status, nat>, tasks: seq<Task>) {
    && counts.Keys == QueueStatuses + StatusesIn(tasks)
    && forall st :: st in counts ==> counts[st] == CountStatus(tasks, st)
  }

  /** Counting one more row keeps the counts exact. */
  lemma CountStep(counts: map<Status, nat>, tasks: seq<Task>, i: nat)
    requires i < |tasks| && CountsOf(counts, tasks[..i])
    ensures var st := tasks[i].status;
            CountsOf(counts[st := (if st in counts then counts[st] else 0) + 1], tasks[..i + 1])
  {
    var st := tasks[i].status;
    var next := counts[st := (if st in counts then counts[st] else 0) + 1];
    assert tasks[..i + 1][..i] == tasks[..i];
    StatusesInSnoc(tasks, i);
    if st !in counts {
      CountAbsent(tasks[..i], st);
    }
    forall s | s in next ensures next[s] == CountStatus(tasks[..i + 1], s) {
    }
  }

  /**
   * `_update_queue_metrics`: a count for each of the five statuses (0 when
   * absent) and for every other status that occurs, and the backlog alert.
   */
  method UpdateQueueMetrics(tasks: seq<Task>) returns (m: QueueMetrics)
    ensures m.counts.Keys == QueueStatuses + StatusesIn(tasks)
    ensures forall st :: st in m.counts ==> m.counts[st] == CountStatus(tasks, st)
    ensures m.backlogAlert <==> CountStatus(tasks, Queued) > BacklogThreshold
  {
    var counts: map<Status, nat> := map[Queued := 0, Running := 0, Done := 0, Failed := 0, Cleanup := 0];
    assert tasks[..0] == [];
    for i := 0 to |tasks|
      invariant CountsOf(counts, tasks[..i])
    {
      CountStep(counts, tasks, i);
      var st := tasks[i].status;
      if st in counts {
        counts := counts[st := counts[st] + 1];
      } else {
        counts := counts[st := 1];
      }
    }
    assert tasks[..|tasks|] == tasks;
    var queued := counts[Queued];
    m := QueueMetrics(counts, queued > BacklogThreshold);
  }

  // -------------------------------------------------------------- selection

  /** Task `i` is pending and no pending task was created before it. */
  predicate IsOldestPending(tasks: seq<Task>, i: int) {
    && 0 <= i < |tasks| && Pending(tasks[i])
    && forall j :: 0 <= j < |tasks| && Pending(tasks[j]) ==> tasks[i].createdAt <= tasks[j].createdAt
  }

  /** The pending task with the earliest `created_at`, if there is a pending task. */
  method SelectOldest(tasks: seq<Task>) returns (pick: Option<nat>)
    ensures pick.None? <==> forall j :: 0 <= j < |tasks| ==> !Pending(tasks[j])
    ensures pick.Some? ==> IsOldestPending(tasks, pick.value)
  {
    pick := None;
    for i := 0 to |tasks|
      invariant pick.None? <==> forall j :: 0 <= j < i ==> !Pending(tasks[j])
      invariant pick.Some? ==> pick.value < i && Pending(tasks[pick.value])
      invariant pick.Some? ==> forall j :: 0 <= j < i && Pending(tasks[j]) ==> tasks[pick.value].createdAt <= tasks[j].createdAt
    {
      if Pending(tasks[i]) && (pick.None? || tasks[i].createdAt < tasks[pick.value].createdAt) {
        pick := Some(i);
      }
    }
  }

  // ---------------------------------------------------------------- outcome

  /** How a run ended, as far as the task row is concerned. */
  datatype Verdict = Success | Failure(error: string)

  /** Python's `str(r)` for what a copy run returned. */
  function ResultText(r: CopyResult): string {
    match r
    case Blocked(reason) => "{'status': 'blocked', 'reason': '" + reason + "'}"
    case Noop => "{'status': 'noop'}"
    case MissingSource => "{'status': 'missing_source'}"
    case Skipped(reason) => "{'status': 'skipped', 'reason': '" + reason + "'}"
    case Copied(size, token) =>
      "{'status': 'copied', 'size': " + Text.DecimalString(size) + ", 'version_token': '" + token + "'}"
    case RetriesExhausted => "{'status': 'failed', 'error': 'max_retries_exceeded'}"
  }

  /** The verdict of a copy run: `copied` and `noop` succeed; every other outcome fails with its reason. */
  function CopyVerdict(r: Call<CopyResult>): (v: Verdict)
    ensures v.Success? <==> r.Ok? && (r.value.Copied? || r.value.Noop?)
    ensures r == Ok(MissingSource) ==> v == Failure("missing_source")
    ensures r.Ok? && r.value.Blocked? ==> v == Failure(r.value.reason)
    ensures r.Ok? && r.value.Skipped? ==> v == Failure(ResultText(r.value))
    ensures r.Raise? ==> v == Failure(r.error.message)
  {
    match r
    case Ok(Copied(_, _)) => Success
    case Ok(Noop) => Success
    case Ok(MissingSource) => Failure("missing_source")
    case Ok(Blocked(reason)) => Failure(reason)
    case Ok(other) => Failure(ResultText(other))
    case Raise(e) => Failure(e.message)
  }

  /** The verdict of a cleanup run: it fails only when the delete raised something other than "not found". */
  function CleanupVerdict(r: Call<CleanupResult>): (v: Verdict)
    ensures v.Success? <==> r.Ok?
    ensures r.Raise? ==> v == Failure(r.error.message)
  {
    if r.Ok? then Success else Failure(r.error.message)
  }

  /**
   * The row after a run with verdict `v`: done with an empty error; or, on a
   * failure, one more attempt and either deleted (`None`) at `MaxAttempts` or
   * put back with status `requeue` and the error recorded.
   */
  function Settle(t: Task, v: Verdict, requeue: Status): Option<Task> {
    match v
    case Success => Some(t.(status := Done, error := ""))
    case Failure(error) =>
      if t.attempts + 1 >= MaxAttempts then None
      else Some(t.(status := requeue, error := error, attempts := t.attempts + 1))
  }

  /**
   * The row updates after a run with verdict `v`: `done` with the error
   * cleared, or `failed` with the error and one more attempt, then deleted at
   * `MaxAttempts` or put back to `requeue`.
   */
  method SettleRun(t: Task, v: Verdict, requeue: Status) returns (row: Option<Task>)
    ensures row == Settle(t, v, requeue)
  {
    var task := t;
    if v.Success? {
      task := task.(status := Done, error := "");
    } else {
      task := task.(status := Failed, error := v.error);
    }
    if task.status == Failed {
      task := task.(attempts := task.attempts + 1);
      if task.attempts >= MaxAttempts {
        return None;
      }
      task := task.(status := requeue);
    }
    row := Some(task);
  }

  /** A copy task is run when queued or failed; any other pending task is a cleanup. */
  predicate CopyPath(t: Task) {
    t.status == Queued || t.status == Failed
  }

  /** What one worker pass does to the task it picked. */
  function Processed(t: Task, env: CopyEnv, deletion: Call<()>): Option<Task> {
    if CopyPath(t) then Settle(t, CopyVerdict(EnsureAndCopy(env).result), Queued)
    else Settle(t, CleanupVerdict(CleanupOnce(deletion)), Cleanup)
  }

  /** The verdict of the run a pass makes for `t`. */
  function RunVerdict(t: Task, env: CopyEnv, deletion: Call<()>): Verdict {
    if CopyPath(t) then CopyVerdict(EnsureAndCopy(env).result) else CleanupVerdict(CleanupOnce(deletion))
  }

  /** The table with row `i` replaced by `row`, or removed when `row` is `None`. */
  function Replace(tasks: seq<Task>, i: nat, row: Option<Task>): seq<Task>
    requires i < |tasks|
  {
    if row.Some? then tasks[i := row.value] else tasks[..i] + tasks[i + 1..]
  }

  /**
   * The row a pass leaves: never failed or running; done exactly when the run
   * succeeded; otherwise back to `queued` (copy) or `cleanup`. Only the
   * status, the error and the attempt count change.
   */
  lemma ProcessedStatus(t: Task, env: CopyEnv, deletion: Call<()>)
    requires Pending(t)
    ensures var after := Processed(t, env, deletion);
            && (after.Some? ==> after.value.status != Failed && after.value.status != Running)
            && (after.Some? ==> (after.value.status == Done <==> RunVerdict(t, env, deletion).Success?))
            && (after.Some? && after.value.status != Done ==>
                  after.value.status == (if CopyPath(t) then Queued else Cleanup))
            && (after.Some? ==>
                  after.value.key == t.key && after.value.src == t.src
                  && after.value.dst == t.dst && after.value.createdAt == t.createdAt)
  {
  }

  /**
   * Attempt accounting: a success leaves `attempts` alone; a failure adds
   * exactly one, and the row is deleted exactly when that reaches `MaxAttempts`.
   */
  lemma AttemptAccounting(t: Task, env: CopyEnv, deletion: Call<()>)
    ensures var after := Processed(t, env, deletion);
            var v := RunVerdict(t, env, deletion);
            && (v.Success? ==> after.Some? && after.value.attempts == t.attempts && after.value.error == "")
            && (v.Failure? ==> (after.None? <==> t.attempts + 1 >= MaxAttempts))
            && (v.Failure? && after.Some? ==> after.value.attempts == t.attempts + 1 && after.value.error == v.error)
  {
  }

  /** A blocked copy is not final: it is recorded as a failure with its reason and requeued (or deleted). */
  lemma BlockedIsRequeued(t: Task, env: CopyEnv, deletion: Call<()>)
    requires CopyPath(t)
    requires env.encryptionEnforced && !env.destinationEncrypted
    ensures var after := Processed(t, env, deletion);
            after.None? || (after.value.status == Queued && after.value.error == DestinationNotEncrypted)
  {
    BlockedBeforeAnything(env);
  }

  /** A task that keeps failing is run at most `MaxAttempts` times before it is deleted. */
  lemma {:induction false} FailuresUntilDeleted(t: Task, error: string, requeue: Status, n: nat)
    requires t.attempts < MaxAttempts
    requires n == MaxAttempts - t.attempts
    ensures FailRepeatedly(t, error, requeue, n - 1).Some?
    ensures FailRepeatedly(t, error, requeue, n) == None
    decreases n
  {
    if t.attempts + 1 < MaxAttempts {
      var next := t.(status := requeue, error := error, attempts := t.attempts + 1);
      FailuresUntilDeleted(next, error, requeue, n - 1);
    }
  }

  /** The row after `n` successive failed runs, `None` once deleted. */
  function FailRepeatedly(t: Task, error: string, requeue: Status, n: nat): Option<Task>
    decreases n
  {
    if n == 0 then Some(t)
    else
      match Settle(t, Failure(error), requeue)
      case None => None
      case Some(next) => FailRepeatedly(next, error, requeue, n - 1)
  }

  // -------------------------------------------------------------- the table

  class TaskTable {
    var tasks: seq<Task>
    /** The `version_token` of each file's metadata row, by file key. */
    var versionTokens: map<string, string>

    constructor (tasks: seq<Task>, versionTokens: map<string, string>)
      ensures this.tasks == tasks && this.versionTokens == versionTokens
    {
      this.tasks := tasks;
      this.versionTokens := versionTokens;
    }

    /**
     * One run of task `t`: a copy for `queued`/`failed`, a cleanup for
     * `cleanup`, with the row's fields set as the run goes. A copy that copied
     * records its new version token on the file's metadata row, if any.
     */
    method RunTask(t: Task, env: CopyEnv, deletion: Call<()>) returns (row: Option<Task>)
      requires Pending(t)
      modifies this`versionTokens
      ensures row == Processed(t, env, deletion)
      ensures versionTokens == TokensAfter(t, env, old(versionTokens))
    {
      if t.status == Queued || t.status == Failed {
        var result, _ := EnsureAndCopyOnce(env);
        if result.Ok? && result.value.Copied? && t.key in versionTokens {
          versionTokens := versionTokens[t.key := result.value.versionToken];
        }
        row := SettleRun(t, CopyVerdict(result), Queued);
      } else {
        row := SettleRun(t, CleanupVerdict(CleanupOnce(deletion)), Cleanup);
      }
    }

    /**
     * `process_queue_once`: pick the oldest pending task, mark it running,
     * run it once against the storage outcomes `env` (copy) and `deletion`
     * (cleanup), settle its row, and report the queue metrics. With no
     * pending task nothing changes.
     */
    method ProcessQueueOnce(env: CopyEnv, deletion: Call<()>) returns (processed: bool, metrics: QueueMetrics, ghost picked: nat)
      modifies this
      ensures processed <==> exists j :: 0 <= j < |old(tasks)| && Pending(old(tasks)[j])
      ensures !processed ==> tasks == old(tasks) && versionTokens == old(versionTokens)
      ensures processed ==>
        && IsOldestPending(old(tasks), picked)
        && tasks == Replace(old(tasks), picked, Processed(old(tasks)[picked], env, deletion))
        && versionTokens == TokensAfter(old(tasks)[picked], env, old(versionTokens))
      ensures forall st :: st in metrics.counts ==> metrics.counts[st] == CountStatus(tasks, st)
      ensures metrics.counts.Keys == QueueStatuses + StatusesIn(tasks)
      ensures metrics.backlogAlert <==> CountStatus(tasks, Queued) > BacklogThreshold
    {
      var pick := SelectOldest(tasks);
      if pick.None? {
        metrics := UpdateQueueMetrics(tasks);
        return false, metrics, 0;
      }
      var i := pick.value;
      picked := i;
      var t := tasks[i];
      if CopyPath(t) {
        tasks := tasks[i := t.(status := Running)];
      }
      var row := RunTask(t, env, deletion);
      ReplaceOverwrites(old(tasks), tasks, i, row);
      tasks := Replace(tasks, i, row);
      metrics := UpdateQueueMetrics(tasks);
      processed := true;
    }
  }

  /** The version tokens after running `t`: changed only by a copy that copied, and only for a file that has a row. */
  function TokensAfter(t: Task, env: CopyEnv, tokens: map<string, string>): map<string, string> {
    var r := EnsureAndCopy(env).result;
    if CopyPath(t) && r.Ok? && r.value.Copied? && t.key in tokens
    then tokens[t.key := r.value.versionToken]
    else tokens
  }

  /** Only a copy that copied changes a version token. */
  lemma TokenChangesOnlyOnCopy(t: Task, env: CopyEnv, tokens: map<string, string>)
    ensures TokensAfter(t, env, tokens) != tokens ==>
      CopyPath(t) && EnsureAndCopy(env).result.Ok? && EnsureAndCopy(env).result.value.Copied?
      && TokensAfter(t, env, tokens) == tokens[t.key := EnsureAndCopy(env).result.value.versionToken]
    ensures TokensAfter(t, env, tokens).Keys == tokens.Keys
  {
  }

  lemma ReplaceOverwrites(a: seq<Task>, b: seq<Task>, i: nat, row: Option<Task>)
    requires i < |a| == |b|
    requires forall j :: 0 <= j < |a| && j != i ==> a[j] == b[j]
    ensures Replace(a, i, row) == Replace(b, i, row)
  {
    if row.None? {
      assert a[..i] == b[..i] && a[i + 1..] == b[i + 1..];
    }
  }
}

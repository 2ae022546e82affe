# data-in-motion: migration worker, placement rule and chaos controls

A Dafny model of three parts of the data-in-motion service, which moves
objects between storage endpoints according to how "hot" they are:

- **The migration worker** (`app/services/migrator/service.py`). One pass of
  `process_queue_once` picks the pending task with the earliest `created_at`.
  A `queued` or `failed` task is copied by `_ensure_and_copy_once`. That run
  checks the encryption policy, sleeps for the injected chaos latency, ensures
  both buckets, reads both objects' metadata (`_head_meta`), and stops early
  for a no-op, a missing source, an empty source or a file that is still
  growing. Otherwise it copies, retrying throttled attempts with 1, 2 and 4
  second backoffs. A `cleanup` task deletes the source object
  (`_cleanup_once`). A failed run adds one to the attempt count: the task is
  deleted at 5 attempts and requeued otherwise. The queue metrics
  (`_update_queue_metrics`) are then recomputed.
- **Placement** (`app/ml/serve_tiers.py`). `recommend_placement` sorts the
  caller's endpoint list in place: by latency for hot data, by cost for cold
  data, and by cost times latency otherwise. It recommends the first
  endpoint. `_choose_cols` and `predict_proba` pick the model's feature
  columns and build its input vector.
- **Chaos controls** (`app/services/policy/chaos.py`). These keep the set of
  endpoints forced to fail as a sorted comma-joined setting, and the injected
  latency as a decimal setting.

Modules:

- `Wrappers` holds `Option`.
- `Text` models Python string order, `",".join`, `split(",")` and `str(int)`.
- `Storage` models storage call outcomes and error codes.
- `Migrator` models `_head_meta`, the check chain, the retry loop and `_cleanup_once`.
- `MigrationQueue` models the task table, the metrics, task selection and settling a row.
- `Placement` and `Features` model `serve_tiers.py`.
- `Chaos` models `chaos.py`.

Each storage call is an input to the model: either the value it returned or
the exception it raised. Everything a copy run does to the outside world is
recorded in order as a trace (sleeps, bucket checks, head requests, copy
attempts). This lets the order of the checks and the backoff schedule be
stated.

The model follows what the code does, including where that differs from
what a reader might expect of a migration queue:

- A `blocked` or `skipped` copy is not terminal. It is recorded as a failure,
  counts against the attempt budget and is requeued.
- Exhausted retries raise the last throttling error. They never return the
  `max_retries_exceeded` result.
- The forced-failure set of the chaos controls is not consulted by the
  migrator. Only the injected latency is.
- Hotness exactly 0.7 or exactly 0.3 is warm.
- No integrity verification follows a copy.

## Model

| member | source | states |
|---|---|---|
| Chaos.ChaosControls.GetFailedEndpoints | app/services/policy/chaos.py:10-11 | the failed list is what the store's list reader gives for the stored setting |
| Chaos.ChaosControls.FailEndpoint | app/services/policy/chaos.py:14-18 | returns a strictly sorted, duplicate-free list whose elements are the stored ones plus `name`, and stores exactly that list comma-joined under the fail key; nothing else in the store changes |
| Chaos.FailIdempotentWhenSplit | app/services/policy/chaos.py:14-18 | failing the same endpoint twice stores and returns what failing it once did, for a store that reads a list back by splitting at commas and comma-free names |
| Chaos.FailTwiceSame | app/services/policy/chaos.py:14-18 | the same idempotence for any store that reads back the elements it was given |
| Chaos.ChaosControls.RecoverEndpoint | app/services/policy/chaos.py:21-26 | returns a strictly sorted list whose elements are the stored ones without `name` (absent or not), and stores it comma-joined |
| Chaos.RecoverAbsentUnchanged | app/services/policy/chaos.py:21-26 | recovering an endpoint that is not failed leaves a sorted list as it is |
| Chaos.FailThenRecover | app/services/policy/chaos.py:14-26 | failing a new endpoint and then recovering it gives back the sorted original list, for a store that reads back (as a set) the list it was given |
| Chaos.FailThenRecoverWhenSplit | app/services/policy/chaos.py:14-26 | the same for a store that reads a list back by splitting at commas, when no name contains a comma |
| Chaos.RecoverCommaNameLeavesPieces | app/services/policy/chaos.py:14-26 | with such a store, failing `c,d` after `a` and recovering `c,d` leaves `a`, `c`, `d`: the round trip fails for a name with a comma |
| Chaos.ChaosControls.ClearFailures | app/services/policy/chaos.py:29-31 | stores the empty string under the fail key and returns the empty list |
| Chaos.ChaosControls.GetLatency | app/services/policy/chaos.py:36-37 | a missing or unreadable latency setting reads as 0; otherwise the integer read |
| Chaos.ChaosControls.SetLatency | app/services/policy/chaos.py:39-41 | stores `str(ms)` under the latency key, which parses back to `ms`, and returns `ms` |
| Chaos.Insert | app/services/policy/chaos.py:15-17 | adding a name to a strictly sorted list keeps it strictly sorted and adds exactly that element |
| Chaos.SortedSet | app/services/policy/chaos.py:15-18 | `sorted(set(xs))` is strictly sorted and has exactly the elements of `xs` |
| Chaos.Without | app/services/policy/chaos.py:22-24 | removes exactly `name` from the element set |
| Text.SortedUnique | app/services/policy/chaos.py:18 | two strictly sorted lists with the same elements are equal |
| Text.SplitJoin | app/services/policy/chaos.py:17 | splitting the comma-join of a non-empty list of comma-free names gives the list back |
| Text.JoinConflatesCommas | app/services/policy/chaos.py:17 | for comma-free `a` and `b`, the name `a,b` is stored exactly as the two names `a` and `b` are, and reads back as those two, not as itself |
| Text.DecimalRoundTrip | app/services/policy/chaos.py:40 | `str(ms)` reads back as `ms` for every integer, negative included |
| Text.BelowTransitive | app/services/policy/chaos.py:18 | Python string order is transitive |
| Text.BelowTotal | app/services/policy/chaos.py:18 | Python string order is total on distinct strings |
| Migrator.StripQuotes | app/services/migrator/service.py:36 | the ETag without its leading and trailing double quotes: a slice of the input with only quotes cut away and no quote left at either end |
| Migrator.HeadMeta | app/services/migrator/service.py:33-41 | metadata when the head succeeds: the ETag with its surrounding quotes stripped (empty when absent) and the size (0 when ContentLength is absent); `None` exactly for the not-found codes 404/NoSuchKey/NotFound; every other error raised unchanged |
| Migrator.CheckChain | app/services/migrator/service.py:49-99 | a run that passes the checks has done exactly the prelude (latency sleep, both buckets, both heads, the recheck); a run stopped by a check never reports a copy |
| Migrator.ProceedsIffPasses | app/services/migrator/service.py:49-119 | a run reaches the copy loop exactly when every check passes, and is then the prelude followed by the retry loop on the source size and fresh token |
| Migrator.BlockedBeforeAnything | app/services/migrator/service.py:49-50 | the result is `blocked`/`destination_not_encrypted` exactly when encryption is enforced and the destination is unencrypted, and then nothing at all (no sleep, no storage call) was done |
| Migrator.HeadsDecide | app/services/migrator/service.py:62-71 | equal ETag and size on both sides is a no-op; a missing source is a no-op when the destination has the object and `missing_source` otherwise; none of these copies or backs off |
| Migrator.SkipRules | app/services/migrator/service.py:81-99 | size 0 is skipped as `empty_source`; otherwise a source modified under 5 s ago is skipped as `file_growing`; a failed recheck or one without LastModified goes on to copy |
| Migrator.BackoffLaw | app/services/migrator/service.py:101-118 | at most 4 attempts; the sleeps are 1, 2, 4 seconds in order, one after each throttled attempt but the last; the run ends with what the last attempt gave |
| Migrator.RetryClosedForm | app/services/migrator/service.py:104-118 | the retry loop stops at the first attempt that succeeds, fails other than by throttling, or is the fourth |
| Migrator.AlwaysThrottled | app/services/migrator/service.py:112-118 | throttled on every attempt: 4 attempts, sleeps 1, 2, 4, then the last error is raised |
| Migrator.OtherErrorRaisedAtOnce | app/services/migrator/service.py:110-118 | an error that is not throttling is raised at once, with no sleep after it and no later attempt |
| Migrator.NeverRetriesExhausted | app/services/migrator/service.py:119 | the `max_retries_exceeded` result is never returned |
| Migrator.CopyWithRetry | app/services/migrator/service.py:101-119 | the loop's result and trace are those of the retry specification |
| Migrator.EnsureAndCopyOnce | app/services/migrator/service.py:45-119 | the run's result and trace are those of the copy specification |
| Migrator.CleanupOnce | app/services/migrator/service.py:121-131 | `deleted` exactly when the delete succeeds; a no-op exactly for the not-found codes; every other error raised unchanged |
| MigrationQueue.UpdateQueueMetrics | app/services/migrator/service.py:13-31 | a count for each of the five statuses (0 when absent) and for every other status text present, each equal to the number of rows with that status; the backlog alert exactly when more than 20 are queued |
| MigrationQueue.CountsCoverTable | app/services/migrator/service.py:13-21 | the five counts and the count of rows with any other status add up to the number of rows |
| MigrationQueue.SelectOldest | app/services/migrator/service.py:135-143 | no pick exactly when no task is queued, cleanup or failed; otherwise a pending task with the least `created_at` |
| MigrationQueue.CopyVerdict | app/services/migrator/service.py:148-167 | `copied` and `noop` succeed; `missing_source` fails with that reason; `blocked` with its reason; any other result with its text; an exception with its message |
| MigrationQueue.CleanupVerdict | app/services/migrator/service.py:180-186 | a cleanup fails only when the delete raised, with the error's message |
| MigrationQueue.SettleRun | app/services/migrator/service.py:169-174 | the row after a verdict: done with the error cleared, or one more attempt and deleted at 5 or requeued |
| MigrationQueue.ProcessedStatus | app/services/migrator/service.py:145-192 | a settled row is never failed or running; it is done exactly when the run succeeded and otherwise back to `queued` (copy) or `cleanup`; key, endpoints and creation time are unchanged |
| MigrationQueue.AttemptAccounting | app/services/migrator/service.py:169-174 | a success leaves the attempt count alone and clears the error; a failure adds exactly one and records the error; the row is deleted exactly when the count reaches 5 |
| MigrationQueue.BlockedIsRequeued | app/services/migrator/service.py:161-174 | a blocked copy is requeued with reason `destination_not_encrypted`, or deleted |
| MigrationQueue.FailuresUntilDeleted | app/services/migrator/service.py:169-174 | a task that keeps failing is still present after one fewer than its remaining attempts and deleted after exactly that many failed runs |
| MigrationQueue.TokenChangesOnlyOnCopy | app/services/migrator/service.py:152-157 | only a copy that copied changes a version token, and only for a file that already has a metadata row |
| MigrationQueue.TaskTable.RunTask | app/services/migrator/service.py:145-195 | the row after the run is the settled row, and the version tokens change as the copy specification says |
| MigrationQueue.TaskTable.ProcessQueueOnce | app/services/migrator/service.py:133-197 | processes a task exactly when one is pending; then the oldest pending row is replaced by its settled row (or removed); with none, nothing changes; the metrics describe the table afterwards |
| Placement.TierOf | app/ml/serve_tiers.py:64-76 | hot exactly above 0.7, cold exactly below 0.3, warm from 0.3 to 0.7 inclusive |
| Placement.SortBy | app/ml/serve_tiers.py:66-75 | the sorted list is ordered by the key and a permutation of the input |
| Placement.InsertSorted | app/ml/serve_tiers.py:66-75 | inserting into a sorted list keeps it sorted |
| Placement.SortStable | app/ml/serve_tiers.py:66-75 | the sort is stable: endpoints with equal keys keep their input order |
| Placement.SortHead | app/ml/serve_tiers.py:66-78 | the first endpoint after sorting is the earliest endpoint of least key |
| Placement.RecommendChoice | app/ml/serve_tiers.py:48-79 | the recommendation is the earliest endpoint of least latency (hot), cost (cold) or cost times latency (warm), missing values counting 9999 or 1; the reason names the tier; the hotness is echoed; a best endpoint without a name is a `KeyError` |
| Placement.SortInPlace | app/ml/serve_tiers.py:66-75 | the array now holds the stable sort of its old contents |
| Placement.RecommendPlacement | app/ml/serve_tiers.py:48-79 | `None` for an empty list (left unsorted); otherwise the recommendation for the old contents, with the caller's list sorted in place by the tier's key |
| Features.ChooseColsTable | app/ml/serve_tiers.py:29-39 | 5 features: no `size_bytes`; 7: ends with `partial_upload`; any other count (6 included): the default six; the column count matches a declared 5, 6 or 7; the second six-column list is never chosen |
| Features.FeatureVector | app/ml/serve_tiers.py:44 | one entry per column, in column order, each the dictionary's value or 0.0 when missing |
| Features.ModelInputShape | app/ml/serve_tiers.py:41-44 | the model input has as many entries as the chosen columns (the declared count for 5, 6 or 7), starting with the two access counts |

## Left out

- Storage I/O (`client_for`, `get_bucket`, `ensure_bucket`, head, get, put and delete requests) is not executed. Each call's outcome is an input. `client_for` and `get_bucket` are taken not to raise.
- The database session, its commits and queries are not modelled. The table is a sequence of rows, and the intermediate `running` status is visible only inside one pass.
- Prometheus counters and gauges and the alert's message text are left out. The alert is a boolean in the metrics.
- `uuid4().hex` is an input (`versionToken`). `time.sleep` is recorded in the trace. `datetime.now() - LastModified` is an input age in seconds.
- `_choose_cols`, `predict_proba` and `_lazy_load`: model loading and the model's own `predict_proba` are not modelled. The declared feature count is an input.
- `settings.get_list` and `settings.get_int` are not part of this model. They are reader functions given to the chaos controls.
- `str(e)` of an exception is modelled as the exception's message.
- Floating point is modelled as exact reals, so rounding and NaN keys are not captured. A missing endpoint field uses the default, but a present non-numeric value is not modelled.
- The order in which SQL returns tasks with equal `created_at` is not modelled. The model picks the first in table order. The contract promises only a least `created_at`.
- A task whose `attempts` column is empty is represented with 0 attempts.
- Placement.SortInPlace: Python's own sort algorithm is not modelled step by step. The result is a stable sort written back into the array, which is what Python promises.
- The modelled code has no chaos forced-failure check, no integrity verification after a copy, no placement solver, no heat scoring and no one-active-task-per-key rule, so the model has none either.
- Concurrency between workers is not modelled.

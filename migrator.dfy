/**
 * The migration worker's single-object operations: reading object metadata,
 * the chain of checks that may end a copy early, the copy with its
 * throttling retry loop, and the cleanup delete.
 *
 * Storage calls, the encryption policy, the injected latency and the fresh
 * version token are inputs (`CopyEnv`). Everything the worker does to the
 * outside world is recorded, in order, as a trace of `Action`s, so that the
 * order of the checks and the sleeps can be stated.
 */
module Migrator {
  import opened Wrappers
  import opened Storage

  /** The metadata kept from a head request. */
  datatype Meta = Meta(etag: string, size: int)

  datatype Side = Source | Destination

  /** Something the worker does to the outside world. */
  datatype Action =
    | Sleep(seconds: real)
    | EnsureBucket(side: Side)
    | Head(side: Side)
    | RecheckSource
    | CopyAttempt(attempt: nat)

  /** What one copy run returns when it does not raise. */
  datatype CopyResult =
    | Blocked(reason: string)
    | Noop
    | MissingSource
    | Skipped(reason: string)
    | Copied(size: int, versionToken: string)
    | RetriesExhausted

  /** A run: what it returned or raised, and what it did on the way. */
  datatype Execution = Execution(result: Call<CopyResult>, trace: seq<Action>)

  /**
   * Everything one copy run depends on: the encryption policy, the injected
   * latency in milliseconds, the outcome of each storage call, and the fresh
   * token a successful copy records. `copy(i)` is the outcome of the i-th
   * copy attempt (reading the whole source object and writing it to the
   * destination).
   */
  datatype CopyEnv = CopyEnv(
    encryptionEnforced: bool,
    destinationEncrypted: bool,
    latencyMs: int,
    ensureSource: Call<()>,
    ensureDestination: Call<()>,
    sourceHead: Call<HeadObject>,
    destinationHead: Call<HeadObject>,
    recheck: Call<HeadObject>,
    copy: nat -> Call<()>,
    versionToken: string)

  const DestinationNotEncrypted := "destination_not_encrypted"
  const EmptySource := "empty_source"
  const FileGrowing := "file_growing"
  /** A source modified less than this many seconds ago may still be being written. */
  const GrowingWindow: real := 5.0
  const MaxRetries: nat := 3

  // ---------------------------------------------------------------- metadata

  /** The number of leading double quotes of `s`. */
  function LeadingQuotes(s: string): (n: nat)
    ensures n <= |s|
    ensures forall k :: 0 <= k < n ==> s[k] == '"'
    ensures n == |s| || s[n] != '"'
  {
    if s != [] && s[0] == '"' then 1 + LeadingQuotes(s[1..]) else 0
  }

  /** The number of trailing double quotes of `s`. */
  function TrailingQuotes(s: string): (n: nat)
    ensures n <= |s|
    ensures forall k :: |s| - n <= k < |s| ==> s[k] == '"'
    ensures n == |s| || s[|s| - n - 1] != '"'
  {
    if s != [] && s[|s| - 1] == '"' then 1 + TrailingQuotes(s[..|s| - 1]) else 0
  }

  /** Python's `s.strip('"')`: `s` without its leading and trailing double quotes. */
  function StripQuotes(s: string): (r: string)
    ensures exists a, b ::
      && 0 <= a <= b <= |s| && r == s[a..b]
      && (forall k :: 0 <= k < a ==> s[k] == '"')
      && (forall k :: b <= k < |s| ==> s[k] == '"')
    ensures r == [] || (r[0] != '"' && r[|r| - 1] != '"')
  {
    var a := LeadingQuotes(s);
    var t := s[a..];
    var b := TrailingQuotes(t);
    assert t[..|t| - b] == s[a..a + |t| - b];
    t[..|t| - b]
  }

  /**
   * `_head_meta`: the ETag (unquoted) and size of an object, `None` when the
   * store says there is no such object, and any other error raised again.
   */
  function HeadMeta(call: Call<HeadObject>): (r: Call<Option<Meta>>)
    ensures r == Ok(None) <==> call.Raise? && HasCode(call.error, NotFoundCodes)
    ensures r.Raise? <==> call.Raise? && !HasCode(call.error, NotFoundCodes)
    ensures r.Raise? ==> r.error == call.error
    ensures r.Ok? && r.value.Some? <==> call.Ok?
    ensures call.Ok? ==> r.value.value.size == call.value.contentLength.GetOr(0)
    ensures call.Ok? ==> r.value.value.etag == StripQuotes(call.value.etag.GetOr(""))
  {
    match call
    case Ok(h) => Ok(Some(Meta(StripQuotes(h.etag.GetOr("")), h.contentLength.GetOr(0))))
    case Raise(e) => if HasCode(e, NotFoundCodes) then Ok(None) else Raise(e)
  }

  // ------------------------------------------------------------ check chain

  /** Where the checks before the copy leave a run. */
  datatype Precheck =
    | Stop(result: Call<CopyResult>, trace: seq<Action>)
    | Proceed(size: int, trace: seq<Action>)

  /** The second head request on the source says it was modified less than 5 s ago. */
  predicate Growing(recheck: Call<HeadObject>) {
    recheck.Ok? && recheck.value.lastModifiedAge.Some? && recheck.value.lastModifiedAge.value < GrowingWindow
  }

  /** The latency sleep, if any, that starts every run that is not blocked. */
  function LatencySleep(latencyMs: int): seq<Action> {
    if latencyMs > 0 then [Sleep(latencyMs as real / 1000.0)] else []
  }

  /** Everything a run does before its first copy attempt, when it gets that far. */
  function Prelude(env: CopyEnv): seq<Action> {
    LatencySleep(env.latencyMs)
      + [EnsureBucket(Source), EnsureBucket(Destination), Head(Source), Head(Destination), RecheckSource]
  }

  /** The early-return checks of a copy run, in the order the worker makes them. */
  function CheckChain(env: CopyEnv): (c: Precheck)
    ensures c.Proceed? ==> c.trace == Prelude(env)
    ensures c.Stop? ==> !c.result.Ok? || !c.result.value.Copied?
  {
    if env.encryptionEnforced && !env.destinationEncrypted then
      Stop(Ok(Blocked(DestinationNotEncrypted)), [])
    else
      var slept := LatencySleep(env.latencyMs);
      if env.ensureSource.Raise? then
        Stop(Raise(env.ensureSource.error), slept + [EnsureBucket(Source)])
      else if env.ensureDestination.Raise? then
        Stop(Raise(env.ensureDestination.error), slept + [EnsureBucket(Source), EnsureBucket(Destination)])
      else
        var sm := HeadMeta(env.sourceHead);
        var headed := slept + [EnsureBucket(Source), EnsureBucket(Destination), Head(Source)];
        if sm.Raise? then
          Stop(Raise(sm.error), headed)
        else
          var dm := HeadMeta(env.destinationHead);
          var compared := headed + [Head(Destination)];
          if dm.Raise? then
            Stop(Raise(dm.error), compared)
          else if sm.value.Some? && dm.value.Some? && sm.value.value == dm.value.value then
            Stop(Ok(Noop), compared)
          else if sm.value.None? then
            Stop(Ok(if dm.value.Some? then Noop else MissingSource), compared)
          else if sm.value.value.size == 0 then
            Stop(Ok(Skipped(EmptySource)), compared)
          else if Growing(env.recheck) then
            Stop(Ok(Skipped(FileGrowing)), compared + [RecheckSource])
          else
            Proceed(sm.value.value.size, compared + [RecheckSource])
  }

  // ------------------------------------------------------------- retry loop

  /** A copy attempt that failed with a throttling error. */
  predicate Throttled(c: Call<()>) {
    c.Raise? && HasCode(c.error, ThrottleCodes)
  }

  /**
   * The copy from attempt `attempt` on, `backoff` seconds being the next
   * sleep: success ends the run with `copied`; a throttling error before the
   * last attempt sleeps and tries again with twice the backoff; any other
   * error, and a throttling error on the last attempt, is raised again.
   */
  function Retry(copy: nat -> Call<()>, attempt: nat, backoff: int, size: int, token: string): Execution
    requires attempt <= MaxRetries
    decreases MaxRetries - attempt
  {
    var c := copy(attempt);
    if c.Ok? then
      Execution(Ok(Copied(size, token)), [CopyAttempt(attempt)])
    else if Throttled(c) && attempt < MaxRetries then
      var rest := Retry(copy, attempt + 1, backoff * 2, size, token);
      Execution(rest.result, [CopyAttempt(attempt), Sleep(backoff as real)] + rest.trace)
    else
      Execution(Raise(c.error), [CopyAttempt(attempt)])
  }

  /** `run` preceded by the actions `done`. */
  function After(done: seq<Action>, run: Execution): Execution {
    Execution(run.result, done + run.trace)
  }

  /** `_ensure_and_copy_once`, as a function of its inputs. */
  function EnsureAndCopy(env: CopyEnv): Execution {
    match CheckChain(env)
    case Stop(result, trace) => Execution(result, trace)
    case Proceed(size, trace) =>
      var run := Retry(env.copy, 0, 1, size, env.versionToken);
      Execution(run.result, trace + run.trace)
  }

  /**
   * The retry loop of `_ensure_and_copy_once`: at most `MaxRetries` retries,
   * the backoff starting at 1 second and doubling after each sleep.
   */
  method CopyWithRetry(copy: nat -> Call<()>, size: int, token: string) returns (result: Call<CopyResult>, trace: seq<Action>)
    ensures Execution(result, trace) == Retry(copy, 0, 1, size, token)
  {
    trace := [];
    var backoff := 1;
    for attempt := 0 to MaxRetries + 1
      invariant attempt <= MaxRetries
      invariant Retry(copy, 0, 1, size, token) == After(trace, Retry(copy, attempt, backoff, size, token))
    {
      trace := trace + [CopyAttempt(attempt)];
      var c := copy(attempt);
      if c.Ok? {
        return Ok(Copied(size, token)), trace;
      }
      if HasCode(c.error, ThrottleCodes) && attempt < MaxRetries {
        trace := trace + [Sleep(backoff as real)];
        backoff := backoff * 2;
        continue;
      }
      return Raise(c.error), trace;
    }
    result := Ok(RetriesExhausted);
  }

  /** `_ensure_and_copy_once`: the checks, then the copy with its retry loop. */
  method EnsureAndCopyOnce(env: CopyEnv) returns (result: Call<CopyResult>, trace: seq<Action>)
    ensures Execution(result, trace) == EnsureAndCopy(env)
  {
    var pre := CheckChain(env);
    if pre.Stop? {
      return pre.result, pre.trace;
    }
    var copyTrace;
    result, copyTrace := CopyWithRetry(env.copy, pre.size, env.versionToken);
    trace := pre.trace + copyTrace;
  }

  // --------------------------------------------------- properties of a run

  function Pow2(n: nat): nat {
    if n == 0 then 1 else 2 * Pow2(n - 1)
  }

  /** The durations of the sleeps in `trace`, in order. */
  function Sleeps(trace: seq<Action>): seq<real> {
    if trace == [] then []
    else (if trace[0].Sleep? then [trace[0].seconds] else []) + Sleeps(trace[1..])
  }

  /** The number of copy attempts in `trace`. */
  function CopyAttempts(trace: seq<Action>): nat {
    if trace == [] then 0
    else (if trace[0].CopyAttempt? then 1 else 0) + CopyAttempts(trace[1..])
  }

  lemma {:induction false} TraceConcat(a: seq<Action>, b: seq<Action>)
    ensures Sleeps(a + b) == Sleeps(a) + Sleeps(b)
    ensures CopyAttempts(a + b) == CopyAttempts(a) + CopyAttempts(b)
    decreases |a|
  {
    if a != [] {
      assert (a + b)[0] == a[0];
      assert (a + b)[1..] == a[1..] + b;
      TraceConcat(a[1..], b);
    } else {
      assert a + b == b;
    }
  }

  /** A trace of bucket and head actions only has no sleep and no copy attempt. */
  lemma {:induction false} QuietTrace(t: seq<Action>)
    requires forall i :: 0 <= i < |t| ==> !t[i].Sleep? && !t[i].CopyAttempt?
    ensures Sleeps(t) == [] && CopyAttempts(t) == 0
  {
    if t != [] {
      QuietTrace(t[1..]);
    }
  }

  /** The attempt at which the retry loop stops: the first one not throttled, or the last one allowed. */
  function LastAttempt(copy: nat -> Call<()>, from: nat): (k: nat)
    requires from <= MaxRetries
    ensures from <= k <= MaxRetries
    ensures forall i :: from <= i < k ==> Throttled(copy(i))
    ensures k < MaxRetries ==> !Throttled(copy(k))
    decreases MaxRetries - from
  {
    if from == MaxRetries || !Throttled(copy(from)) then from else LastAttempt(copy, from + 1)
  }

  /** The actions of attempts `from` to `last`: each attempt but the last followed by its backoff sleep. */
  function Attempts(from: nat, last: nat): seq<Action>
    requires from <= last
    decreases last - from
  {
    if from == last then [CopyAttempt(last)]
    else [CopyAttempt(from), Sleep(Pow2(from) as real)] + Attempts(from + 1, last)
  }

  /** What the last attempt's outcome makes of the run. */
  function AttemptOutcome(c: Call<()>, size: int, token: string): Call<CopyResult> {
    if c.Ok? then Ok(Copied(size, token)) else Raise(c.error)
  }

  /** The retry loop in closed form: it stops at `LastAttempt` and returns or raises what that attempt gave. */
  lemma {:induction false} RetryClosedForm(copy: nat -> Call<()>, from: nat, size: int, token: string)
    requires from <= MaxRetries
    ensures Retry(copy, from, Pow2(from), size, token)
      == Execution(AttemptOutcome(copy(LastAttempt(copy, from)), size, token), Attempts(from, LastAttempt(copy, from)))
    decreases MaxRetries - from
  {
    if !copy(from).Ok? && Throttled(copy(from)) && from < MaxRetries {
      RetryClosedForm(copy, from + 1, size, token);
    }
  }

  /** The sleeps of attempts `from` to `last` are the doubling backoffs 2^from, ..., 2^(last-1). */
  lemma {:induction false} AttemptsSchedule(from: nat, last: nat)
    requires from <= last
    ensures Sleeps(Attempts(from, last)) == seq(last - from, i requires 0 <= i => Pow2(from + i) as real)
    ensures CopyAttempts(Attempts(from, last)) == last - from + 1
    decreases last - from
  {
    if from < last {
      AttemptsSchedule(from + 1, last);
      TraceConcat([CopyAttempt(from), Sleep(Pow2(from) as real)], Attempts(from + 1, last));
    }
  }

  /**
   * The backoff law: a copy makes at most 4 attempts; the sleeps between them
   * are 1, 2, 4 seconds in that order, one after each throttled attempt but
   * the last; the run ends with what the last attempt gave.
   */
  lemma BackoffLaw(copy: nat -> Call<()>, size: int, token: string)
    ensures var run := Retry(copy, 0, 1, size, token);
            var k := LastAttempt(copy, 0);
            && CopyAttempts(run.trace) == k + 1 <= MaxRetries + 1
            && Sleeps(run.trace) == [1.0, 2.0, 4.0][..k]
            && run.result == AttemptOutcome(copy(k), size, token)
  {
    RetryClosedForm(copy, 0, size, token);
    var k := LastAttempt(copy, 0);
    AttemptsSchedule(0, k);
    assert Pow2(1) == 2 && Pow2(2) == 4;
  }

  /** Throttled on every attempt: three sleeps totalling 7 seconds, then the last error is raised. */
  lemma AlwaysThrottled(copy: nat -> Call<()>, size: int, token: string)
    requires forall i :: 0 <= i <= MaxRetries ==> Throttled(copy(i))
    ensures var run := Retry(copy, 0, 1, size, token);
            && run.result.Raise?
            && run.result == AttemptOutcome(copy(MaxRetries), size, token)
            && Sleeps(run.trace) == [1.0, 2.0, 4.0]
            && CopyAttempts(run.trace) == 4
  {
    BackoffLaw(copy, size, token);
  }

  /** An error other than throttling is raised at once: no sleep follows it and no further attempt is made. */
  lemma OtherErrorRaisedAtOnce(copy: nat -> Call<()>, i: nat, size: int, token: string)
    requires i <= MaxRetries
    requires forall j :: 0 <= j < i ==> Throttled(copy(j))
    requires copy(i).Raise? && !Throttled(copy(i))
    ensures var run := Retry(copy, 0, 1, size, token);
            && run.result == Raise(copy(i).error)
            && |Sleeps(run.trace)| == i
            && run.trace[|run.trace| - 1] == CopyAttempt(i)
  {
    BackoffLaw(copy, size, token);
    RetryClosedForm(copy, 0, size, token);
    var k := LastAttempt(copy, 0);
    assert k == i;
    AttemptsLast(0, k);
  }

  lemma {:induction false} AttemptsLast(from: nat, last: nat)
    requires from <= last
    ensures Attempts(from, last)[|Attempts(from, last)| - 1] == CopyAttempt(last)
    decreases last - from
  {
    if from < last {
      AttemptsLast(from + 1, last);
    }
  }

  /** The declarative reading of the check chain: every check a run must pass before it copies. */
  predicate PassesChecks(env: CopyEnv) {
    && !(env.encryptionEnforced && !env.destinationEncrypted)
    && env.ensureSource.Ok? && env.ensureDestination.Ok?
    && env.sourceHead.Ok?
    && !HeadMeta(env.destinationHead).Raise?
    && HeadMeta(env.destinationHead) != HeadMeta(env.sourceHead)
    && env.sourceHead.value.contentLength.GetOr(0) != 0
    && !Growing(env.recheck)
  }

  /**
   * A run copies exactly when it passes every check, and then it does so
   * after the prelude (latency sleep, buckets, both heads, the recheck), with
   * the source size and the fresh token.
   */
  lemma ProceedsIffPasses(env: CopyEnv)
    ensures CheckChain(env).Proceed? <==> PassesChecks(env)
    ensures PassesChecks(env) ==>
      EnsureAndCopy(env) == After(Prelude(env),
        Retry(env.copy, 0, 1, env.sourceHead.value.contentLength.GetOr(0), env.versionToken))
  {
  }

  /** Encryption enforced and destination unencrypted: blocked, and nothing at all is done first. */
  lemma BlockedBeforeAnything(env: CopyEnv)
    ensures EnsureAndCopy(env).result == Ok(Blocked(DestinationNotEncrypted))
      <==> env.encryptionEnforced && !env.destinationEncrypted
    ensures env.encryptionEnforced && !env.destinationEncrypted ==> EnsureAndCopy(env).trace == []
  {
    if !(env.encryptionEnforced && !env.destinationEncrypted) {
      var pre := CheckChain(env);
      if pre.Proceed? {
        var run := Retry(env.copy, 0, 1, pre.size, env.versionToken);
        RetryClosedForm(env.copy, 0, pre.size, env.versionToken);
      }
    }
  }

  /** The runs that get as far as reading both heads. */
  predicate ReachesHeads(env: CopyEnv) {
    !(env.encryptionEnforced && !env.destinationEncrypted) && env.ensureSource.Ok? && env.ensureDestination.Ok?
  }

  /**
   * How the two heads decide a run: same ETag and size on both sides is a
   * no-op; a missing source is a no-op when the destination has the object
   * and `missing_source` otherwise; none of these copies.
   */
  lemma HeadsDecide(env: CopyEnv)
    requires ReachesHeads(env)
    requires !HeadMeta(env.sourceHead).Raise? && !HeadMeta(env.destinationHead).Raise?
    ensures var sm, dm := HeadMeta(env.sourceHead).value, HeadMeta(env.destinationHead).value;
            var run := EnsureAndCopy(env);
            && (sm.Some? && dm.Some? && sm == dm ==> run.result == Ok(Noop))
            && (sm.None? && dm.Some? ==> run.result == Ok(Noop))
            && (sm.None? && dm.None? ==> run.result == Ok(MissingSource))
            && (sm.None? || sm == dm ==> CopyAttempts(run.trace) == 0 && Sleeps(run.trace) == Sleeps(LatencySleep(env.latencyMs)))
  {
    var heads := [EnsureBucket(Source), EnsureBucket(Destination), Head(Source), Head(Destination)];
    QuietTrace(heads);
    assert CopyAttempts(LatencySleep(env.latencyMs)) == 0;
    TraceConcat(LatencySleep(env.latencyMs), heads);
    var sm, dm := HeadMeta(env.sourceHead).value, HeadMeta(env.destinationHead).value;
    if sm.None? || sm == dm {
      var slept := LatencySleep(env.latencyMs);
      assert slept + [EnsureBucket(Source), EnsureBucket(Destination), Head(Source)] + [Head(Destination)]
        == slept + heads;
      assert CheckChain(env).Stop? && CheckChain(env).trace == slept + heads;
    }
  }

  /**
   * A present source of size 0 is skipped as `empty_source`; otherwise a
   * source modified less than 5 s ago is skipped as `file_growing`; a second
   * head that fails or has no LastModified does not stop the copy.
   */
  lemma SkipRules(env: CopyEnv)
    requires ReachesHeads(env)
    requires env.sourceHead.Ok? && !HeadMeta(env.destinationHead).Raise?
    requires HeadMeta(env.destinationHead) != HeadMeta(env.sourceHead)
    ensures env.sourceHead.value.contentLength.GetOr(0) == 0 ==>
      EnsureAndCopy(env).result == Ok(Skipped(EmptySource))
    ensures env.sourceHead.value.contentLength.GetOr(0) != 0 && Growing(env.recheck) ==>
      EnsureAndCopy(env).result == Ok(Skipped(FileGrowing))
    ensures env.sourceHead.value.contentLength.GetOr(0) != 0
      && (env.recheck.Raise? || env.recheck.value.lastModifiedAge.None?)
      ==> CopyAttempts(EnsureAndCopy(env).trace) > 0
  {
    if env.sourceHead.value.contentLength.GetOr(0) != 0 && !Growing(env.recheck) {
      var size := env.sourceHead.value.contentLength.GetOr(0);
      BackoffLaw(env.copy, size, env.versionToken);
      TraceConcat(Prelude(env), Retry(env.copy, 0, 1, size, env.versionToken).trace);
    }
  }

  /** A copy run never returns `max_retries_exceeded`: the last throttled attempt raises instead. */
  lemma NeverRetriesExhausted(env: CopyEnv)
    ensures EnsureAndCopy(env).result != Ok(RetriesExhausted)
  {
    var pre := CheckChain(env);
    if pre.Proceed? {
      RetryClosedForm(env.copy, 0, pre.size, env.versionToken);
    }
  }

  // ---------------------------------------------------------------- cleanup

  datatype CleanupResult = Deleted | AlreadyGone

  /** `_cleanup_once`: delete the source object; "not found" is not an error. */
  function CleanupOnce(deletion: Call<()>): (r: Call<CleanupResult>)
    ensures r == Ok(Deleted) <==> deletion.Ok?
    ensures r == Ok(AlreadyGone) <==> deletion.Raise? && HasCode(deletion.error, NotFoundCodes)
    ensures r.Raise? ==> deletion.Raise? && r.error == deletion.error
  {
    match deletion
    case Ok(_) => Ok(Deleted)
    case Raise(e) => if HasCode(e, NotFoundCodes) then Ok(AlreadyGone) else Raise(e)
  }
}
